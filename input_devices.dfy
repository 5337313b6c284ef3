/** `InputDeviceManager` (`input_device_manager.cpp`): the registry of touch
    sensor boards by bus address, each with a status record holding an
    initialised flag, a 32-bit channel-enable mask and the last touch state.

    The sensor object behind an entry is reduced to what the registry reads
    from it (its name and its channel count); what `init()` and
    `getCurrentTouchState()` report comes in as parameters. */
module InputDevices {
  import opened Common
  import opened Bits

  /** What the registry reads from a `TouchSensor`. */
  datatype Sensor = Sensor(name: string, channelCount: nat)

  /** `TouchDeviceStatus`. */
  datatype DeviceStatus = DeviceStatus(
    addr: u16, name: string, initialized: bool,
    enabled: nat, touch: nat, supported: nat, timestamp: nat)

  /** `DeviceEntry`: the address, the status and the last touch state seen. */
  datatype DeviceEntry = DeviceEntry(addr: u16, status: DeviceStatus, lastTouch: nat)

  const WORD := 0x1_0000_0000

  /** The entry `DeviceEntry(addr, dev)` makes: not initialised, nothing
      enabled, no touch. */
  function NewEntry(addr: u16, dev: Sensor): (e: DeviceEntry)
    ensures e.addr == addr && e.status.addr == addr && !e.status.initialized
    ensures e.status.enabled == 0 && e.status.touch == 0 && e.lastTouch == 0
  {
    DeviceEntry(addr, DeviceStatus(addr, dev.name, false, 0, 0, dev.channelCount, 0), 0)
  }

  /** The zero-initialised status with only the address filled in. */
  function EmptyStatus(addr: u16): DeviceStatus
  {
    DeviceStatus(addr, "", false, 0, 0, 0, 0)
  }

  /** `findDevice`: the first entry with the address, searched from `i`. */
  function FindFrom(ds: seq<DeviceEntry>, addr: u16, i: nat): (r: Option<nat>)
    requires i <= |ds|
    ensures r.Some? ==> i <= r.value < |ds| && ds[r.value].addr == addr
    ensures r.Some? ==> forall j :: i <= j < r.value ==> ds[j].addr != addr
    ensures r.None? <==> forall j :: i <= j < |ds| ==> ds[j].addr != addr
    decreases |ds| - i
  {
    if i == |ds| then None
    else if ds[i].addr == addr then Some(i)
    else FindFrom(ds, addr, i + 1)
  }

  function Find(ds: seq<DeviceEntry>, addr: u16): (r: Option<nat>)
    ensures r.Some? ==> r.value < |ds| && ds[r.value].addr == addr
    ensures r.Some? ==> forall j :: 0 <= j < r.value ==> ds[j].addr != addr
    ensures r.None? <==> forall j :: 0 <= j < |ds| ==> ds[j].addr != addr
  {
    FindFrom(ds, addr, 0)
  }

  /** No two entries share an address, every mask is a 32-bit word, and an
      entry that is not initialised has no enabled channel and no touch. */
  ghost predicate Good(ds: seq<DeviceEntry>)
  {
    (forall i, j :: 0 <= i < j < |ds| ==> ds[i].addr != ds[j].addr) &&
    (forall i :: 0 <= i < |ds| ==> ds[i].status.enabled < WORD) &&
    (forall i :: 0 <= i < |ds| && !ds[i].status.initialized ==> ds[i].status.enabled == 0 && ds[i].status.touch == 0)
  }

  /** `registerTouchSensor`: a null device or a known address is refused,
      otherwise the entry is appended. */
  function Registered(ds: seq<DeviceEntry>, dev: Option<Sensor>, addr: u16): (r: (bool, seq<DeviceEntry>))
    ensures r.0 <==> dev.Some? && forall j :: 0 <= j < |ds| ==> ds[j].addr != addr
    ensures !r.0 ==> r.1 == ds
    ensures r.0 ==> r.1 == ds + [NewEntry(addr, dev.value)]
  {
    if dev.None? || Find(ds, addr).Some? then (false, ds)
    else (true, ds + [NewEntry(addr, dev.value)])
  }

  /** `unregisterTouchSensor`: the entry with the address is erased; an
      unknown address is refused. */
  function Unregistered(ds: seq<DeviceEntry>, addr: u16): (r: (bool, seq<DeviceEntry>))
    ensures r.0 <==> exists j :: 0 <= j < |ds| && ds[j].addr == addr
    ensures !r.0 ==> r.1 == ds
    ensures r.0 ==> |r.1| == |ds| - 1
  {
    match Find(ds, addr)
    case None => (false, ds)
    case Some(i) => (true, ds[..i] + ds[i + 1..])
  }

  /** `initializeDevice`, given what `init()` returns and the mask and
      channel count the device reports afterwards. */
  function Initialized(ds: seq<DeviceEntry>, addr: u16, initOk: bool, mask: u32, channels: u32): (r: (bool, seq<DeviceEntry>))
    ensures Find(ds, addr).None? ==> r == (false, ds)
    ensures |r.1| == |ds|
    ensures r.0 ==> Find(r.1, addr) == Find(ds, addr) && r.1[Find(ds, addr).value].status.initialized
    ensures forall j :: 0 <= j < |ds| && ds[j].addr != addr ==> r.1[j] == ds[j]
  {
    match Find(ds, addr)
    case None => (false, ds)
    case Some(i) =>
      if ds[i].status.initialized then (true, ds)
      else if !initOk then (false, ds)
      else
        var e := ds[i];
        var e' := e.(status := e.status.(initialized := true, enabled := mask, supported := channels));
        FindAfterUpdate(ds, addr, i, e');
        (true, ds[i := e'])
  }

  /** `deinitializeDevice`: an initialised entry loses its flag, its enabled
      channels and its touch state; the call fails only for an unknown
      address. */
  function Deinitialized(ds: seq<DeviceEntry>, addr: u16): (r: (bool, seq<DeviceEntry>))
    ensures r.0 <==> Find(ds, addr).Some?
    ensures |r.1| == |ds|
    ensures forall j :: 0 <= j < |ds| && ds[j].addr != addr ==> r.1[j] == ds[j]
    ensures forall j :: 0 <= j < |ds| && ds[j].addr == addr && ds[j].status.initialized && Find(ds, addr) == Some(j) ==>
      !r.1[j].status.initialized && r.1[j].status.enabled == 0 && r.1[j].status.touch == 0 && r.1[j].lastTouch == 0
  {
    match Find(ds, addr)
    case None => (false, ds)
    case Some(i) =>
      if !ds[i].status.initialized then (true, ds)
      else
        var e := ds[i];
        (true, ds[i := e.(status := e.status.(initialized := false, enabled := 0, touch := 0), lastTouch := 0)])
  }

  /** `getDeviceStatus`: the entry's status, or an empty status carrying the
      address. */
  function StatusOf(ds: seq<DeviceEntry>, addr: u16): (s: DeviceStatus)
    ensures (forall j :: 0 <= j < |ds| ==> ds[j].addr != addr) ==> s == EmptyStatus(addr)
  {
    match Find(ds, addr)
    case None => EmptyStatus(addr)
    case Some(i) => ds[i].status
  }

  /** `getDeviceTouchState`. */
  function TouchState(ds: seq<DeviceEntry>, addr: u16): nat
  {
    StatusOf(ds, addr).touch
  }

  /** `getEnabledChannelsMask`. */
  function EnabledMask(ds: seq<DeviceEntry>, addr: u16): nat
  {
    StatusOf(ds, addr).enabled
  }

  /** `isChannelEnabled`: bit `channel` of the mask; false for an unknown
      address. */
  predicate ChannelEnabled(ds: seq<DeviceEntry>, addr: u16, channel: nat)
  {
    Find(ds, addr).Some? && Bit(ds[Find(ds, addr).value].status.enabled, channel)
  }

  /** The mask `setChannelEnabled` writes: `|= 1 << channel` or
      `&= ~(1 << channel)`. */
  function SetBit(mask: nat, channel: nat, on: bool): (m: nat)
    ensures forall i: nat :: Bit(m, i) <==> if i == channel then on else Bit(mask, i)
    ensures mask < WORD && channel < 32 ==> m < WORD
  {
    SetBitFacts(mask, channel, on);
    if on then Or(mask, Pow2(channel)) else AndNot(mask, Pow2(channel))
  }

  lemma SetBitFacts(mask: nat, channel: nat, on: bool)
    ensures var m := if on then Or(mask, Pow2(channel)) else AndNot(mask, Pow2(channel));
      (forall i: nat :: Bit(m, i) <==> if i == channel then on else Bit(mask, i)) &&
      (mask < WORD && channel < 32 ==> m < WORD)
  {
    var m := if on then Or(mask, Pow2(channel)) else AndNot(mask, Pow2(channel));
    forall i: nat ensures Bit(m, i) <==> if i == channel then on else Bit(mask, i) {
      Pow2Bit(channel, i);
      if on { OrBit(mask, Pow2(channel), i); } else { AndNotBit(mask, Pow2(channel), i); }
    }
    if mask < WORD && channel < 32 {
      Pow2Values();
      if on {
        Pow2Mono(channel, 32);
        OrBound(mask, Pow2(channel), 32);
      } else {
        AndNotBound(mask, Pow2(channel));
      }
    }
  }

  lemma {:induction false} Pow2Mono(a: nat, b: nat)
    requires a <= b
    ensures Pow2(a) <= Pow2(b)
    decreases b
  {
    if a < b {
      Pow2Mono(a, b - 1);
    }
  }

  /** `setChannelEnabled`: only an initialised entry changes, and only in
      that channel's bit. */
  function ChannelSet(ds: seq<DeviceEntry>, addr: u16, channel: nat, on: bool): (r: (bool, seq<DeviceEntry>))
    ensures r.0 <==> Find(ds, addr).Some? && ds[Find(ds, addr).value].status.initialized
    ensures !r.0 ==> r.1 == ds
    ensures |r.1| == |ds|
  {
    match Find(ds, addr)
    case None => (false, ds)
    case Some(i) =>
      if !ds[i].status.initialized then (false, ds)
      else
        var e := ds[i];
        (true, ds[i := e.(status := e.status.(enabled := SetBit(e.status.enabled, channel, on)))])
  }

  /** One entry of `updateDeviceStates`: an initialised entry whose sensor
      reports a new state records it with the time. */
  function UpdatedEntry(e: DeviceEntry, now: u32, state: u32): DeviceEntry
  {
    if !e.status.initialized || state == e.lastTouch then e
    else e.(status := e.status.(touch := state, timestamp := now), lastTouch := state)
  }

  /** The `(address, state)` events `updateDeviceStates` raises, in order. */
  function Events(ds: seq<DeviceEntry>, states: seq<u32>): (ev: seq<(u16, nat)>)
    requires |states| == |ds|
    ensures |ev| <= |ds|
  {
    if ds == [] then []
    else
      var n := |ds| - 1;
      Events(ds[..n], states[..n]) +
        (if ds[n].status.initialized && states[n] != ds[n].lastTouch then [(ds[n].addr, states[n] as nat)] else [])
  }

  // ---------------------------------------------------------------------
  // Properties of the registry.

  /** Registering a new address and unregistering it restores the registry. */
  lemma RegisterThenUnregister(ds: seq<DeviceEntry>, dev: Sensor, addr: u16)
    requires forall j :: 0 <= j < |ds| ==> ds[j].addr != addr
    ensures Registered(ds, Some(dev), addr).0
    ensures Unregistered(Registered(ds, Some(dev), addr).1, addr) == (true, ds)
  {
    var r := Registered(ds, Some(dev), addr).1;
    assert r[|ds|].addr == addr;
    assert Find(r, addr) == Some(|ds|);
    assert r[..|ds|] + r[|ds| + 1..] == ds;
  }

  lemma RegisterKeepsGood(ds: seq<DeviceEntry>, dev: Option<Sensor>, addr: u16)
    requires Good(ds)
    ensures Good(Registered(ds, dev, addr).1)
  {
  }

  /** After a successful unregister the address is gone and the rest of the
      registry keeps its order. */
  lemma UnregisterRemoves(ds: seq<DeviceEntry>, addr: u16)
    requires Good(ds)
    ensures Good(Unregistered(ds, addr).1)
    ensures forall j :: 0 <= j < |Unregistered(ds, addr).1| ==> Unregistered(ds, addr).1[j].addr != addr
    ensures Find(Unregistered(ds, addr).1, addr).None?
  {
    match Find(ds, addr)
    case None =>
    case Some(i) =>
      var r := ds[..i] + ds[i + 1..];
      assert forall j :: 0 <= j < |r| ==> r[j] == if j < i then ds[j] else ds[j + 1];
  }

  /** Setting a channel changes only that channel's bit of that entry, and
      a later `isChannelEnabled` reads back what was set. */
  lemma SetThenReadChannel(ds: seq<DeviceEntry>, addr: u16, channel: nat, on: bool, other: nat)
    requires other != channel
    ensures ChannelSet(ds, addr, channel, on).0 ==> ChannelEnabled(ChannelSet(ds, addr, channel, on).1, addr, channel) == on
    ensures ChannelEnabled(ChannelSet(ds, addr, channel, on).1, addr, other) == ChannelEnabled(ds, addr, other)
  {
    var r := ChannelSet(ds, addr, channel, on);
    if r.0 {
      var i := Find(ds, addr).value;
      FindAfterUpdate(ds, addr, i, r.1[i]);
    }
  }

  /** Replacing the entry `Find` points at, keeping its address, leaves
      `Find` where it was. */
  lemma FindAfterUpdate(ds: seq<DeviceEntry>, addr: u16, i: nat, e: DeviceEntry)
    requires Find(ds, addr) == Some(i) && e.addr == addr
    ensures Find(ds[i := e], addr) == Some(i)
  {
    var r := ds[i := e];
    assert r[i].addr == addr;
    assert forall j :: 0 <= j < i ==> r[j] == ds[j];
  }

  lemma InitKeepsGood(ds: seq<DeviceEntry>, addr: u16, initOk: bool, mask: u32, channels: u32)
    requires Good(ds)
    ensures Good(Initialized(ds, addr, initOk, mask, channels).1)
  {
  }

  lemma SetChannelKeepsGood(ds: seq<DeviceEntry>, addr: u16, channel: nat, on: bool)
    requires Good(ds) && channel < 32
    ensures Good(ChannelSet(ds, addr, channel, on).1)
  {
  }

  /** A deinitialised entry refuses channel changes until it is initialised
      again, and reads no enabled channel. */
  lemma DeinitThenSetFails(ds: seq<DeviceEntry>, addr: u16, channel: nat, on: bool)
    requires Good(ds) && Deinitialized(ds, addr).0
    ensures !ChannelSet(Deinitialized(ds, addr).1, addr, channel, on).0
    ensures !ChannelEnabled(Deinitialized(ds, addr).1, addr, channel)
    ensures TouchState(Deinitialized(ds, addr).1, addr) == 0
  {
    var i := Find(ds, addr).value;
    var r := Deinitialized(ds, addr).1;
    if ds[i].status.initialized {
      FindAfterUpdate(ds, addr, i, r[i]);
    }
    ZeroBit(channel);
  }

  lemma DeinitKeepsGood(ds: seq<DeviceEntry>, addr: u16)
    requires Good(ds)
    ensures Good(Deinitialized(ds, addr).1)
  {
  }

  /** An address that is not registered reads as nothing: an empty status,
      no touch, no enabled channel. */
  lemma UnknownAddressReadsEmpty(ds: seq<DeviceEntry>, addr: u16, channel: nat)
    requires forall j :: 0 <= j < |ds| ==> ds[j].addr != addr
    ensures StatusOf(ds, addr).addr == addr && !StatusOf(ds, addr).initialized
    ensures TouchState(ds, addr) == 0 && EnabledMask(ds, addr) == 0
    ensures !ChannelEnabled(ds, addr, channel)
  {
  }

  /** An event is raised exactly for the initialised entries whose reported
      state differs from the last one seen. */
  lemma {:induction false} EventsMeaning(ds: seq<DeviceEntry>, states: seq<u32>)
    requires |states| == |ds|
    ensures |Events(ds, states)| == |set j | 0 <= j < |ds| && ds[j].status.initialized && states[j] != ds[j].lastTouch|
    decreases |ds|
  {
    if ds != [] {
      var n := |ds| - 1;
      EventsMeaning(ds[..n], states[..n]);
      var before := set j | 0 <= j < n && ds[..n][j].status.initialized && states[..n][j] != ds[..n][j].lastTouch;
      var all := set j | 0 <= j < |ds| && ds[j].status.initialized && states[j] != ds[j].lastTouch;
      if ds[n].status.initialized && states[n] != ds[n].lastTouch {
        assert all == before + {n};
      } else {
        assert all == before;
      }
    }
  }

  /** `devices_`. */
  class InputDeviceManager {
    var devices: seq<DeviceEntry>

    ghost predicate Valid()
      reads this
    {
      Good(devices)
    }

    constructor ()
      ensures Valid() && devices == []
    {
      devices := [];
    }

    /** `findDevice`, the `std::find_if` over `devices_`. */
    method FindDevice(addr: u16) returns (r: Option<nat>)
      ensures r == Find(devices, addr)
    {
      var i := 0;
      while i < |devices|
        invariant i <= |devices| && FindFrom(devices, addr, i) == Find(devices, addr)
      {
        if devices[i].addr == addr {
          return Some(i);
        }
        i := i + 1;
      }
      return None;
    }

    /** `registerTouchSensor`. */
    method RegisterTouchSensor(dev: Option<Sensor>, addr: u16) returns (ok: bool)
      requires Valid()
      modifies this
      ensures Valid() && (ok, devices) == Registered(old(devices), dev, addr)
    {
      RegisterKeepsGood(devices, dev, addr);
      if dev.None? {
        return false;
      }
      var found := FindDevice(addr);
      if found.Some? {
        return false;
      }
      devices := devices + [NewEntry(addr, dev.value)];
      return true;
    }

    /** `unregisterTouchSensor`: deinitialising first does not matter once
        the entry is erased. */
    method UnregisterTouchSensor(addr: u16) returns (ok: bool)
      requires Valid()
      modifies this
      ensures Valid() && (ok, devices) == Unregistered(old(devices), addr)
    {
      UnregisterRemoves(devices, addr);
      var found := FindDevice(addr);
      if found.None? {
        return false;
      }
      var i := found.value;
      devices := devices[..i] + devices[i + 1..];
      return true;
    }

    /** `unregisterAllDevices`. */
    method UnregisterAllDevices()
      modifies this
      ensures Valid() && devices == []
    {
      devices := [];
    }

    /** `getRegisteredDeviceAddresses`. */
    method RegisteredAddresses() returns (addrs: seq<u16>)
      ensures |addrs| == |devices| && forall j :: 0 <= j < |devices| ==> addrs[j] == devices[j].addr
    {
      addrs := [];
      var i := 0;
      while i < |devices|
        invariant i <= |devices| && |addrs| == i
        invariant forall j :: 0 <= j < i ==> addrs[j] == devices[j].addr
      {
        addrs := addrs + [devices[i].addr];
        i := i + 1;
      }
    }

    /** `isDeviceRegistered`. */
    method IsDeviceRegistered(addr: u16) returns (b: bool)
      ensures b <==> exists j :: 0 <= j < |devices| && devices[j].addr == addr
    {
      var found := FindDevice(addr);
      b := found.Some?;
    }

    /** `initializeDevice`. */
    method InitializeDevice(addr: u16, initOk: bool, mask: u32, channels: u32) returns (ok: bool)
      requires Valid()
      modifies this
      ensures Valid() && (ok, devices) == Initialized(old(devices), addr, initOk, mask, channels)
    {
      InitKeepsGood(devices, addr, initOk, mask, channels);
      var found := FindDevice(addr);
      if found.None? {
        return false;
      }
      var i := found.value;
      if devices[i].status.initialized {
        return true;
      }
      if !initOk {
        return false;
      }
      var e := devices[i];
      devices := devices[i := e.(status := e.status.(initialized := true, enabled := mask, supported := channels))];
      return true;
    }

    /** `deinitializeDevice`. */
    method DeinitializeDevice(addr: u16) returns (ok: bool)
      requires Valid()
      modifies this
      ensures Valid() && (ok, devices) == Deinitialized(old(devices), addr)
    {
      DeinitKeepsGood(devices, addr);
      var found := FindDevice(addr);
      if found.None? {
        return false;
      }
      var i := found.value;
      if !devices[i].status.initialized {
        return true;
      }
      var e := devices[i];
      devices := devices[i := e.(status := e.status.(initialized := false, enabled := 0, touch := 0), lastTouch := 0)];
      return true;
    }

    /** `deinitializeAllDevices`: every entry ends up deinitialised, with no
        enabled channel and no touch, and the addresses stay. */
    method DeinitializeAllDevices()
      requires Valid()
      modifies this
      ensures Valid() && |devices| == |old(devices)|
      ensures forall j :: 0 <= j < |devices| ==> devices[j].addr == old(devices)[j].addr
      ensures forall j :: 0 <= j < |devices| ==> !devices[j].status.initialized && devices[j].status.enabled == 0 && devices[j].status.touch == 0
    {
      var i := 0;
      while i < |devices|
        invariant Valid() && i <= |devices| && |devices| == |old(devices)|
        invariant forall j :: 0 <= j < |devices| ==> devices[j].addr == old(devices)[j].addr
        invariant forall j :: 0 <= j < i ==> !devices[j].status.initialized && devices[j].status.enabled == 0 && devices[j].status.touch == 0
      {
        ghost var before := devices;
        assert Find(devices, devices[i].addr) == Some(i);
        var _ := DeinitializeDevice(devices[i].addr);
        assert forall j :: 0 <= j < |devices| && j != i ==> devices[j] == before[j];
        i := i + 1;
      }
    }

    /** `getDeviceStatus`. */
    method GetDeviceStatus(addr: u16) returns (s: DeviceStatus)
      ensures s == StatusOf(devices, addr)
    {
      var found := FindDevice(addr);
      if found.Some? {
        return devices[found.value].status;
      }
      s := DeviceStatus(addr, "", false, 0, 0, 0, 0);
    }

    /** `getAllDeviceStatus`. */
    method GetAllDeviceStatus() returns (ss: seq<DeviceStatus>)
      ensures |ss| == |devices| && forall j :: 0 <= j < |devices| ==> ss[j] == devices[j].status
    {
      ss := [];
      var i := 0;
      while i < |devices|
        invariant i <= |devices| && |ss| == i
        invariant forall j :: 0 <= j < i ==> ss[j] == devices[j].status
      {
        ss := ss + [devices[i].status];
        i := i + 1;
      }
    }

    /** `setChannelEnabled`; a channel of 32 or more is outside the mask. */
    method SetChannelEnabled(addr: u16, channel: byte, on: bool) returns (ok: bool)
      requires Valid() && channel < 32
      modifies this
      ensures Valid() && (ok, devices) == ChannelSet(old(devices), addr, channel as nat, on)
    {
      SetChannelKeepsGood(devices, addr, channel as nat, on);
      var found := FindDevice(addr);
      if found.None? {
        return false;
      }
      var i := found.value;
      if !devices[i].status.initialized {
        return false;
      }
      var e := devices[i];
      devices := devices[i := e.(status := e.status.(enabled := SetBit(e.status.enabled, channel as nat, on)))];
      return true;
    }

    /** `isChannelEnabled`. */
    method IsChannelEnabled(addr: u16, channel: byte) returns (b: bool)
      requires channel < 32
      ensures b == ChannelEnabled(devices, addr, channel as nat)
    {
      var found := FindDevice(addr);
      if found.None? {
        return false;
      }
      b := Bit(devices[found.value].status.enabled, channel as nat);
    }

    /** `updateDeviceStates`, given the time and the state each sensor
        reports; returns the events raised, in registry order. */
    method UpdateDeviceStates(now: u32, states: seq<u32>) returns (events: seq<(u16, nat)>)
      requires Valid() && |states| == |devices|
      modifies this
      ensures Valid() && |devices| == |old(devices)|
      ensures forall j :: 0 <= j < |devices| ==> devices[j] == UpdatedEntry(old(devices)[j], now, states[j])
      ensures events == Events(old(devices), states)
    {
      var i := 0;
      events := [];
      while i < |devices|
        invariant i <= |devices| && |devices| == |old(devices)|
        invariant forall j :: 0 <= j < i ==> devices[j] == UpdatedEntry(old(devices)[j], now, states[j])
        invariant forall j :: i <= j < |devices| ==> devices[j] == old(devices)[j]
        invariant events == Events(old(devices)[..i], states[..i])
      {
        assert old(devices)[..i + 1][..i] == old(devices)[..i];
        assert states[..i + 1][..i] == states[..i];
        var e := devices[i];
        if e.status.initialized && states[i] != e.lastTouch {
          devices := devices[i := e.(status := e.status.(touch := states[i] as nat, timestamp := now as nat), lastTouch := states[i] as nat)];
          events := events + [(e.addr, states[i] as nat)];
        }
        i := i + 1;
      }
      assert old(devices)[..i] == old(devices);
      assert states[..i] == states;
    }
  }
}
