/** The per-zone sensitivity page: the 34 serial areas grouped into the
    five zones A to E, the sensor channels bound to each zone collected as
    one channel bitmap per sensor, and a target sensitivity per zone that a
    selector steps between low and ultra and sends for every bitmap of the
    zone. */
module ZoneSensitivity {
  import opened Common
  import opened Bits
  import AreaSensitivity

  // ---------------------------------------------------------------------
  // Zones

  /** The serial areas are numbered from 1: A1-A8 are 1-8, B1-B8 9-16,
      C1-C2 17-18, D1-D8 19-26 and E1-E8 27-34. */
  const AREA_A1: nat := 1
  const AREA_B1: nat := 9
  const AREA_C1: nat := 17
  const AREA_D1: nat := 19
  const AREA_E1: nat := 27
  const AREA_E8: nat := 34
  const ZONE_COUNT: nat := 5

  /** `getZoneIndex`: A 0, B 1, C 2, D 3, E 4, and -1 outside the areas. */
  function ZoneIndex(area: byte): int
  {
    if AREA_A1 <= area < AREA_B1 then 0
    else if AREA_B1 <= area < AREA_C1 then 1
    else if AREA_C1 <= area < AREA_D1 then 2
    else if AREA_D1 <= area < AREA_E1 then 3
    else if AREA_E1 <= area <= AREA_E8 then 4
    else -1
  }

  /** `getZoneName`: the zone letter, or "未知" past the five zones. */
  function ZoneName(zone: byte): string
  {
    if zone == 0 then "A" else if zone == 1 then "B" else if zone == 2 then "C"
    else if zone == 3 then "D" else if zone == 4 then "E" else "未知"
  }

  /** An area's zone is named by the row letter of the area's own name, and
      only the 34 areas have a zone. */
  lemma ZoneOfArea(area: byte)
    ensures 1 <= area <= AREA_E8 ==>
      (0 <= ZoneIndex(area) < ZONE_COUNT && ZoneName(ZoneIndex(area) as byte) == [AreaSensitivity.AreaName(area - 1)[0]])
    ensures !(1 <= area <= AREA_E8) ==> ZoneIndex(area) == -1
  {
  }

  // ---------------------------------------------------------------------
  // Channel bitmaps

  /** One sensor's channels in a zone; the firmware packs it as the device
      mask in the top byte over a 24-bit channel bitmap. */
  datatype ZoneBitmap = ZoneBitmap(mask: byte, channels: nat)

  /** The packed 32-bit form. */
  function Packed(b: ZoneBitmap): nat
  {
    b.mask * Pow2(24) + b.channels
  }

  /** The packed form keeps the mask in the top byte and the channels
      below it. */
  lemma PackedFields(b: ZoneBitmap)
    requires b.channels < Pow2(24)
    ensures Packed(b) / Pow2(24) == b.mask && Packed(b) % Pow2(24) == b.channels
    ensures Packed(b) < 0x1_0000_0000
  {
    Pow2Of24();
  }

  /** No two bitmaps of a zone belong to the same sensor. */
  predicate DistinctMasks(bs: seq<ZoneBitmap>)
  {
    forall i, j :: 0 <= i < j < |bs| ==> bs[i].mask != bs[j].mask
  }

  /** The channels a zone holds for a sensor: its bitmap's channels, or
      none. */
  function ChannelsOf(bs: seq<ZoneBitmap>, mask: byte): nat
  {
    if bs == [] then 0
    else if bs[0].mask == mask then bs[0].channels
    else ChannelsOf(bs[1..], mask)
  }

  lemma {:induction false} ChannelsAt(bs: seq<ZoneBitmap>, k: nat)
    requires DistinctMasks(bs) && k < |bs|
    ensures ChannelsOf(bs, bs[k].mask) == bs[k].channels
  {
    if k > 0 {
      ChannelsAt(bs[1..], k - 1);
    }
  }

  lemma {:induction false} ChannelsAbsent(bs: seq<ZoneBitmap>, mask: byte)
    requires forall i :: 0 <= i < |bs| ==> bs[i].mask != mask
    ensures ChannelsOf(bs, mask) == 0
  {
    if bs != [] {
      ChannelsAbsent(bs[1..], mask);
    }
  }

  /** The merge of one channel: OR it into the sensor's bitmap, or add a
      bitmap for a sensor not yet in the zone. */
  method MergeChannel(bs: seq<ZoneBitmap>, mask: byte, ch: nat) returns (r: seq<ZoneBitmap>)
    requires DistinctMasks(bs)
    ensures DistinctMasks(r) && r != []
    ensures ChannelsOf(r, mask) == Or(ChannelsOf(bs, mask), Pow2(ch))
    ensures forall m: byte :: m != mask ==> ChannelsOf(r, m) == ChannelsOf(bs, m)
    ensures forall i :: 0 <= i < |r| ==> r[i].mask == mask || exists j :: 0 <= j < |bs| && bs[j].mask == r[i].mask
  {
    var i := 0;
    while i < |bs|
      invariant 0 <= i <= |bs|
      invariant forall j :: 0 <= j < i ==> bs[j].mask != mask
    {
      if bs[i].mask == mask {
        r := bs[i := bs[i].(channels := Or(bs[i].channels, Pow2(ch)))];
        assert forall j :: 0 <= j < |r| ==> r[j].mask == bs[j].mask;
        assert DistinctMasks(r);
        ChannelsAt(bs, i);
        ChannelsAt(r, i);
        forall m: byte | m != mask
          ensures ChannelsOf(r, m) == ChannelsOf(bs, m)
        {
          SameOtherChannels(bs, r, i, m);
        }
        return;
      }
      i := i + 1;
    }
    r := bs + [ZoneBitmap(mask, Pow2(ch))];
    ChannelsAbsent(bs, mask);
    OrZero(Pow2(ch));
    ChannelsAt(r, |bs|);
    forall m: byte | m != mask
      ensures ChannelsOf(r, m) == ChannelsOf(bs, m)
    {
      AppendOtherChannels(bs, ZoneBitmap(mask, Pow2(ch)), m);
    }
  }

  lemma {:induction false} SameOtherChannels(bs: seq<ZoneBitmap>, r: seq<ZoneBitmap>, k: nat, m: byte)
    requires |r| == |bs| && k < |bs| && bs[k].mask != m
    requires forall j :: 0 <= j < |bs| ==> r[j].mask == bs[j].mask
    requires forall j :: 0 <= j < |bs| && j != k ==> r[j] == bs[j]
    ensures ChannelsOf(r, m) == ChannelsOf(bs, m)
  {
    if k > 0 && bs[0].mask != m {
      SameOtherChannels(bs[1..], r[1..], k - 1, m);
    } else if k == 0 {
      assert r[1..] == bs[1..];
    }
  }

  lemma {:induction false} AppendOtherChannels(bs: seq<ZoneBitmap>, b: ZoneBitmap, m: byte)
    requires b.mask != m
    ensures ChannelsOf(bs + [b], m) == ChannelsOf(bs, m)
  {
    if bs == [] {
      assert ([b])[1..] == [];
    } else {
      assert (bs + [b])[1..] == bs[1..] + [b];
      AppendOtherChannels(bs[1..], b, m);
    }
  }

  // ---------------------------------------------------------------------
  // Collecting the zones' bindings

  /** A sensor as the device status reports it. */
  datatype Device = Device(connected: bool, mask: byte, maxChannels: nat)

  /** `ZoneBindingInfo`: the zone's name, its bitmaps, its target
      sensitivity (an `int8_t`) and whether anything is bound. */
  datatype ZoneInfo = ZoneInfo(name: string, bitmaps: seq<ZoneBitmap>, target: int, hasBindings: bool)

  /** Sensitivity options: 0 leaves a zone unchanged, 1 to 4 run from low
      to ultra, and a new zone starts at 2. */
  const SENS_UNCHANGED: int := 0
  const SENS_LOW: int := 1
  const SENS_ULTRA: int := 4
  const SENSITIVITY_DEFAULT: int := 2

  /** A zone as its fields are kept: distinct sensors, bindings exactly when
      there are bitmaps. */
  predicate ZoneOk(z: ZoneInfo)
  {
    DistinctMasks(z.bitmaps) && (z.hasBindings <==> z.bitmaps != [])
  }

  /** A connected sensor with mask `m` has channel `c`. */
  predicate SensorHas(ds: seq<Device>, n: nat, m: byte, c: nat)
    requires n <= |ds|
  {
    exists j :: 0 <= j < n && ds[j].connected && ds[j].mask == m && c < ds[j].maxChannels
  }

  /** Channel `c` of sensor `m` belongs to zone `z` once areas below
      `limit` have been scanned. */
  predicate Collected(ds: seq<Device>, mapping: (byte, nat) -> byte, limit: nat, z: nat, m: byte, c: nat)
  {
    SensorHas(ds, |ds|, m, c) && 1 <= mapping(m, c) < limit && ZoneIndex(mapping(m, c)) == z
  }

  /** The five empty zones, named A to E. */
  function EmptyZones(): (zs: seq<ZoneInfo>)
    ensures |zs| == ZONE_COUNT
    ensures forall z :: 0 <= z < ZONE_COUNT ==> ZoneOk(zs[z]) && zs[z].bitmaps == [] && zs[z].name == ZoneName(z as byte)
  {
    seq(ZONE_COUNT, z requires 0 <= z < ZONE_COUNT => ZoneInfo(ZoneName(z as byte), [], SENSITIVITY_DEFAULT, false))
  }

  /** The channels of one sensor bound to `area`, merged into the area's
      zone. */
  method ScanDevice(zs: seq<ZoneInfo>, area: byte, d: Device, mapping: (byte, nat) -> byte) returns (r: seq<ZoneInfo>)
    requires |zs| == ZONE_COUNT && 0 <= ZoneIndex(area) < ZONE_COUNT && d.maxChannels <= 24
    requires forall z :: 0 <= z < ZONE_COUNT ==> ZoneOk(zs[z])
    ensures |r| == ZONE_COUNT && forall z :: 0 <= z < ZONE_COUNT ==> ZoneOk(r[z])
    ensures forall z :: 0 <= z < ZONE_COUNT && z != ZoneIndex(area) ==> r[z] == zs[z]
    ensures forall z :: 0 <= z < ZONE_COUNT ==> r[z].name == zs[z].name && r[z].target == zs[z].target
    ensures forall m: byte, c: nat :: Bit(ChannelsOf(r[ZoneIndex(area)].bitmaps, m), c) <==>
      Bit(ChannelsOf(zs[ZoneIndex(area)].bitmaps, m), c) || (d.connected && m == d.mask && c < d.maxChannels && mapping(m, c) == area)
  {
    var z := ZoneIndex(area);
    r := zs;
    if !d.connected {
      return;
    }
    var ch := 0;
    while ch < d.maxChannels
      invariant ch <= d.maxChannels && |r| == ZONE_COUNT
      invariant forall y :: 0 <= y < ZONE_COUNT ==> ZoneOk(r[y])
      invariant forall y :: 0 <= y < ZONE_COUNT && y != z ==> r[y] == zs[y]
      invariant forall y :: 0 <= y < ZONE_COUNT ==> r[y].name == zs[y].name && r[y].target == zs[y].target
      invariant forall m: byte, c: nat :: Bit(ChannelsOf(r[z].bitmaps, m), c) <==>
        Bit(ChannelsOf(zs[z].bitmaps, m), c) || (m == d.mask && c < ch && mapping(m, c) == area)
    {
      if mapping(d.mask, ch) == area {
        var old_r := r;
        var bs := MergeChannel(r[z].bitmaps, d.mask, ch);
        r := r[z := r[z].(bitmaps := bs, hasBindings := true)];
        forall m: byte, c: nat
          ensures Bit(ChannelsOf(r[z].bitmaps, m), c) <==> Bit(ChannelsOf(old_r[z].bitmaps, m), c) || (m == d.mask && c == ch)
        {
          if m == d.mask {
            OrBit(ChannelsOf(old_r[z].bitmaps, m), Pow2(ch), c);
            Pow2Bit(ch, c);
          }
        }
      }
      ch := ch + 1;
    }
  }

  /** `getZoneBindingInfo`: the five zones with every connected sensor's
      channels bound to one of their areas; empty zones without an input
      manager or without sensors. */
  method GetZoneBindingInfo(hasInputManager: bool, ds: seq<Device>, mapping: (byte, nat) -> byte) returns (zs: seq<ZoneInfo>)
    requires forall j :: 0 <= j < |ds| ==> ds[j].maxChannels <= 24
    ensures |zs| == ZONE_COUNT
    ensures forall z :: 0 <= z < ZONE_COUNT ==> ZoneOk(zs[z]) && zs[z].name == ZoneName(z as byte) && zs[z].target == SENSITIVITY_DEFAULT
    ensures !hasInputManager || ds == [] ==> zs == EmptyZones()
    ensures hasInputManager ==> forall z: nat, m: byte, c: nat :: 0 <= z < ZONE_COUNT ==>
      (Bit(ChannelsOf(zs[z].bitmaps, m), c) <==> Collected(ds, mapping, AREA_E8 + 1, z, m, c))
  {
    zs := EmptyZones();
    if !hasInputManager || ds == [] {
      forall z: nat, m: byte, c: nat | 0 <= z < ZONE_COUNT
        ensures !Bit(ChannelsOf(zs[z].bitmaps, m), c) && (ds == [] ==> !Collected(ds, mapping, AREA_E8 + 1, z, m, c))
      {
        ZeroBit(c);
      }
      return;
    }
    forall z: nat, m: byte, c: nat | 0 <= z < ZONE_COUNT
      ensures !Bit(ChannelsOf(zs[z].bitmaps, m), c)
    {
      ZeroBit(c);
    }
    var area: nat := AREA_A1;
    while area <= AREA_E8
      invariant AREA_A1 <= area <= AREA_E8 + 1 && |zs| == ZONE_COUNT
      invariant forall z :: 0 <= z < ZONE_COUNT ==> ZoneOk(zs[z]) && zs[z].name == ZoneName(z as byte) && zs[z].target == SENSITIVITY_DEFAULT
      invariant forall z: nat, m: byte, c: nat :: 0 <= z < ZONE_COUNT ==>
        (Bit(ChannelsOf(zs[z].bitmaps, m), c) <==> Collected(ds, mapping, area, z, m, c))
    {
      var z := ZoneIndex(area as byte);
      var before := zs;
      var k := 0;
      while k < |ds|
        invariant k <= |ds| && |zs| == ZONE_COUNT
        invariant forall y :: 0 <= y < ZONE_COUNT ==> ZoneOk(zs[y]) && zs[y].name == ZoneName(y as byte) && zs[y].target == SENSITIVITY_DEFAULT
        invariant forall y :: 0 <= y < ZONE_COUNT && y != z ==> zs[y] == before[y]
        invariant forall m: byte, c: nat :: Bit(ChannelsOf(zs[z].bitmaps, m), c) <==>
          Bit(ChannelsOf(before[z].bitmaps, m), c) || (SensorHas(ds, k, m, c) && mapping(m, c) == area)
      {
        var prev := zs;
        zs := ScanDevice(zs, area as byte, ds[k], mapping);
        forall m: byte, c: nat
          ensures SensorHas(ds, k + 1, m, c) <==> SensorHas(ds, k, m, c) || (ds[k].connected && m == ds[k].mask && c < ds[k].maxChannels)
        {
          if SensorHas(ds, k + 1, m, c) && !(ds[k].connected && m == ds[k].mask && c < ds[k].maxChannels) {
            var j :| 0 <= j < k + 1 && ds[j].connected && ds[j].mask == m && c < ds[j].maxChannels;
            assert j < k;
          }
        }
        k := k + 1;
      }
      forall y: nat, m: byte, c: nat | 0 <= y < ZONE_COUNT
        ensures Bit(ChannelsOf(zs[y].bitmaps, m), c) <==> Collected(ds, mapping, area + 1, y, m, c)
      {
      }
      area := area + 1;
    }
  }

  // ---------------------------------------------------------------------
  // Target sensitivity

  /** An `int8_t` after a store of `v`: wrapped into -128..127. */
  function Int8(v: int): (r: int)
    ensures -128 <= r < 128
    ensures -128 <= v < 128 ==> r == v
  {
    (v + 128) % 256 - 128
  }

  /** An `int8_t` stored as its byte and read back is unchanged. */
  lemma Int8OfByte(t: int)
    requires -128 <= t < 128
    ensures Int8(t % 256) == t
  {
    if t < 0 {
      assert t % 256 == t + 256;
      assert (t + 384) % 256 == t + 128;
    }
  }

  /** A target after one selector step: up by one but not above ultra, down
      by one but not below low; the `int8_t` wraps before the bound is
      checked. */
  function TargetStep(t: int, up: bool): int
  {
    if up then (if Int8(t + 1) > SENS_ULTRA then SENS_ULTRA else Int8(t + 1))
    else (if Int8(t - 1) < SENS_LOW then SENS_LOW else Int8(t - 1))
  }

  /** From the unchanged option or any level, a step lands on a level from
      low to ultra, moving by at most one level. */
  lemma TargetStepRange(t: int, up: bool)
    requires SENS_UNCHANGED <= t <= SENS_ULTRA
    ensures SENS_LOW <= TargetStep(t, up) <= SENS_ULTRA
    ensures up && t < SENS_ULTRA ==> TargetStep(t, up) == t + 1
    ensures !up && t > SENS_LOW ==> TargetStep(t, up) == t - 1
    ensures TargetStep(t, up) != SENS_UNCHANGED
  {
  }

  /** A calibration target handed to the input manager for one packed
      bitmap. */
  datatype CalibrationTarget = CalibrationTarget(bitmap: nat, target: byte)

  /** The targets sent for a zone's bitmaps, in order. */
  function TargetsFor(bs: seq<ZoneBitmap>, target: byte): (r: seq<CalibrationTarget>)
    ensures |r| == |bs|
    ensures forall i :: 0 <= i < |bs| ==> r[i] == CalibrationTarget(Packed(bs[i]), target)
  {
    if bs == [] then [] else TargetsFor(bs[..|bs| - 1], target) + [CalibrationTarget(Packed(bs[|bs| - 1]), target)]
  }

  /** The page's zones, static in the firmware; one object here. */
  class ZoneSensitivityPage {
    var zones: seq<ZoneInfo>

    constructor ()
      ensures zones == []
    {
      zones := [];
    }

    /** The render's refresh: zones are collected only while the list is
        empty. */
    method LoadZones(hasInputManager: bool, ds: seq<Device>, mapping: (byte, nat) -> byte)
      requires forall j :: 0 <= j < |ds| ==> ds[j].maxChannels <= 24
      modifies this
      ensures old(zones) != [] ==> zones == old(zones)
      ensures old(zones) == [] ==> |zones| == ZONE_COUNT && hasInputManager ==>
        forall z: nat, m: byte, c: nat :: 0 <= z < ZONE_COUNT ==>
          (Bit(ChannelsOf(zones[z].bitmaps, m), c) <==> Collected(ds, mapping, AREA_E8 + 1, z, m, c))
    {
      if zones == [] {
        zones := GetZoneBindingInfo(hasInputManager, ds, mapping);
      }
    }

    /** `setZoneTargetSensitivity`: the target is stored, and a target other
        than "unchanged" is sent for each of the zone's bitmaps when there
        is an input manager. A zone past the list changes nothing. */
    method SetZoneTargetSensitivity(zone: byte, target: byte, hasInputManager: bool) returns (sent: seq<CalibrationTarget>)
      modifies this
      ensures zone >= |old(zones)| ==> zones == old(zones) && sent == []
      ensures zone < |old(zones)| ==> zones == old(zones)[zone := old(zones)[zone].(target := Int8(target))]
      ensures zone < |old(zones)| && target != SENS_UNCHANGED && hasInputManager ==>
        sent == TargetsFor(old(zones)[zone].bitmaps, target)
      ensures target == SENS_UNCHANGED || !hasInputManager ==> sent == []
    {
      sent := [];
      if zone >= |zones| {
        return;
      }
      zones := zones[zone := zones[zone].(target := Int8(target))];
      if target != SENS_UNCHANGED && hasInputManager {
        var bs := zones[zone].bitmaps;
        var i := 0;
        while i < |bs|
          invariant 0 <= i <= |bs| && sent == TargetsFor(bs[..i], target)
        {
          assert bs[..i + 1][..i] == bs[..i];
          sent := sent + [CalibrationTarget(Packed(bs[i]), target)];
          i := i + 1;
        }
        assert bs[..i] == bs;
      }
    }

    /** `onZoneSensitivityChange`: the zone's target steps up or down and is
        set again through `setZoneTargetSensitivity`. */
    method OnZoneSensitivityChange(up: bool, zone: byte, hasInputManager: bool) returns (sent: seq<CalibrationTarget>)
      modifies this
      ensures zone >= |old(zones)| ==> zones == old(zones) && sent == []
      ensures zone < |old(zones)| ==>
        var t := TargetStep(old(zones)[zone].target, up);
        zones == old(zones)[zone := old(zones)[zone].(target := t)]
        && (hasInputManager && t != SENS_UNCHANGED ==> sent == TargetsFor(old(zones)[zone].bitmaps, t % 256))
    {
      if zone >= |zones| {
        return [];
      }
      var t := TargetStep(zones[zone].target, up);
      zones := zones[zone := zones[zone].(target := t)];
      assert Int8(t % 256) == t by { Int8OfByte(t); }
      sent := SetZoneTargetSensitivity(zone, t % 256, hasInputManager);
    }
  }
}
