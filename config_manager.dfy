/** The configuration store of the controller (`config_manager.cpp`): items
    registered under validated keys, typed values serialised to bytes, and
    the checked writes and resets that keep the write statistics. */
module ConfigManager {
  import opened Common

  datatype ConfigType = BOOL | INT8 | UINT8 | INT16 | UINT16 | INT32 | UINT32 | FLOAT | STRING | BINARY

  datatype Access = READ_ONLY | READ_WRITE | WRITE_ONCE | ADMIN_ONLY

  /** `ConfigItem`, without the description and storage location that no
      modelled operation reads. */
  datatype Item = Item(
    key: string,
    ctype: ConfigType,
    access: Access,
    data: seq<byte>,
    defaultData: seq<byte>,
    minValue: u32,
    maxValue: u32,
    maxLength: u16,
    dirty: bool,
    lastModified: u32)

  // ---- to_bytes / from_bytes ----

  function EncodeBool(b: bool): (d: seq<byte>)
    ensures |d| == 1
  {
    [if b then 1 else 0]
  }

  function DecodeBool(d: seq<byte>): (r: Option<bool>)
    ensures r.Some? <==> |d| == 1
  {
    if |d| != 1 then None else Some(d[0] != 0)
  }

  function EncodeU8(v: byte): (d: seq<byte>)
    ensures |d| == 1
  {
    [v]
  }

  function DecodeU8(d: seq<byte>): (r: Option<byte>)
    ensures r.Some? <==> |d| == 1
  {
    if |d| != 1 then None else Some(d[0])
  }

  /** Little-endian: low byte first. */
  function EncodeU16(v: u16): (d: seq<byte>)
    ensures |d| == 2
  {
    [v % 0x100, v / 0x100]
  }

  function DecodeU16(d: seq<byte>): (r: Option<u16>)
    ensures r.Some? <==> |d| == 2
  {
    if |d| != 2 then None else Some(d[0] as int + 0x100 * d[1] as int)
  }

  function EncodeU32(v: u32): (d: seq<byte>)
    ensures |d| == 4
  {
    [v % 0x100, (v / 0x100) % 0x100, (v / 0x1_0000) % 0x100, v / 0x100_0000]
  }

  function DecodeU32(d: seq<byte>): (r: Option<u32>)
    ensures r.Some? <==> |d| == 4
  {
    if |d| != 4 then None
    else Some(d[0] as int + 0x100 * d[1] as int + 0x1_0000 * d[2] as int + 0x100_0000 * d[3] as int)
  }

  /** A string is stored as its bytes, and any byte sequence reads back as
      a string. */
  function EncodeString(s: seq<byte>): (d: seq<byte>)
    ensures |d| == |s|
  {
    s
  }

  function DecodeString(d: seq<byte>): (r: Option<seq<byte>>)
    ensures r.Some?
  {
    Some(d)
  }

  lemma BoolRoundTrip(b: bool)
    ensures DecodeBool(EncodeBool(b)) == Some(b)
  {
  }

  lemma U8RoundTrip(v: byte)
    ensures DecodeU8(EncodeU8(v)) == Some(v)
  {
  }

  lemma U16RoundTrip(v: u16)
    ensures DecodeU16(EncodeU16(v)) == Some(v)
  {
  }

  lemma U32RoundTrip(v: u32)
    ensures DecodeU32(EncodeU32(v)) == Some(v)
  {
    var b0, b1, b2, b3 := v % 0x100, (v / 0x100) % 0x100, (v / 0x1_0000) % 0x100, v / 0x100_0000;
    assert v / 0x100 == b1 + 0x100 * (v / 0x1_0000);
    assert v / 0x1_0000 == b2 + 0x100 * b3;
  }

  lemma StringRoundTrip(s: seq<byte>)
    ensures DecodeString(EncodeString(s)) == Some(s)
  {
  }

  /** Every 2- and 4-byte sequence is the encoding of the value it decodes
      to: the encodings are onto. */
  lemma U16Onto(d: seq<byte>)
    requires |d| == 2
    ensures EncodeU16(DecodeU16(d).value) == d
  {
  }

  lemma U32Onto(d: seq<byte>)
    requires |d| == 4
    ensures EncodeU32(DecodeU32(d).value) == d
  {
    var v := DecodeU32(d).value;
    var hi: int := d[1] as int + 0x100 * d[2] as int + 0x1_0000 * d[3] as int;
    assert v == d[0] as int + 0x100 * hi;
    assert v % 0x100 == d[0] && v / 0x100 == hi;
    assert v / 0x1_0000 == hi / 0x100;
    assert hi / 0x100 == d[2] as int + 0x100 * d[3] as int && hi % 0x100 == d[1] as int;
    assert v / 0x100_0000 == (hi / 0x100) / 0x100;
  }

  // ---- validation ----

  /** `std::isalnum` in the C locale, and the three extra key characters. */
  predicate KeyChar(c: char)
  {
    ('0' <= c <= '9') || ('A' <= c <= 'Z') || ('a' <= c <= 'z') || c == '.' || c == '_' || c == '-'
  }

  /** A key has 1 to 64 characters, each a letter, a digit, `.`, `_` or `-`. */
  predicate ValidKey(key: string)
  {
    1 <= |key| <= 64 && forall i :: 0 <= i < |key| ==> KeyChar(key[i])
  }

  /** `validate_key`. */
  method ValidateKey(key: string) returns (ok: bool)
    ensures ok == ValidKey(key)
  {
    if |key| == 0 || |key| > 64 {
      return false;
    }
    var i := 0;
    while i < |key|
      invariant i <= |key|
      invariant forall j :: 0 <= j < i ==> KeyChar(key[j])
    {
      if !KeyChar(key[i]) {
        return false;
      }
      i := i + 1;
    }
    return true;
  }

  /** The access half of `validate_access`: writes need READ_WRITE or
      WRITE_ONCE, reads anything but ADMIN_ONLY. */
  predicate AccessAllows(access: Access, write: bool)
  {
    if write then access == READ_WRITE || access == WRITE_ONCE else access != ADMIN_ONLY
  }

  /** `validate_type`: the byte count fits the item's type. */
  predicate ValidType(item: Item, data: seq<byte>)
  {
    match item.ctype
    case BOOL => |data| == 1
    case INT8 => |data| == 1
    case UINT8 => |data| == 1
    case INT16 => |data| == 2
    case UINT16 => |data| == 2
    case INT32 => |data| == 4
    case UINT32 => |data| == 4
    case FLOAT => |data| == 4
    case STRING => |data| <= item.maxLength
    case BINARY => |data| <= item.maxLength
  }

  /** `validate_range`: only a one-byte UINT8 value is range-checked. */
  predicate ValidRange(item: Item, data: seq<byte>)
  {
    item.ctype == UINT8 && |data| == 1 ==> item.minValue <= data[0] <= item.maxValue
  }

  /** The encoding of a value of the item's type always passes the type
      check. */
  lemma EncodingsHaveTheirTypeSize(item: Item, b: bool, v8: byte, v16: u16, v32: u32)
    ensures item.ctype == BOOL ==> ValidType(item, EncodeBool(b))
    ensures item.ctype == UINT8 ==> ValidType(item, EncodeU8(v8))
    ensures item.ctype == UINT16 ==> ValidType(item, EncodeU16(v16))
    ensures item.ctype == UINT32 ==> ValidType(item, EncodeU32(v32))
  {
  }

  /** `ConfigStatistics`, restricted to the counters the store updates. */
  datatype Statistics = Statistics(totalReads: nat, totalWrites: nat, validationErrors: nat, uptimeSeconds: u32)

  /** The store after a successful write of `data` to `key`. */
  function Written(configs: map<string, Item>, key: string, data: seq<byte>, now: u32): map<string, Item>
    requires key in configs
  {
    configs[key := configs[key].(data := data, dirty := true, lastModified := now)]
  }

  class Store {
    var initialized: bool
    var configs: map<string, Item>
    var stats: Statistics

    /** Every stored item carries its own key. */
    ghost predicate Valid()
      reads this
    {
      forall k :: k in configs ==> configs[k].key == k
    }

    constructor ()
      ensures Valid() && !initialized && configs == map[] && stats == Statistics(0, 0, 0, 0)
    {
      initialized := false;
      configs := map[];
      stats := Statistics(0, 0, 0, 0);
    }

    /** `has_config`. */
    function Has(key: string): (b: bool)
      reads this
      ensures b <==> key in configs
    {
      key in configs
    }

    /** `register_config`: a valid key stores the item (replacing any item
        of that key) with its key field set; an invalid key changes
        nothing. */
    method Register(key: string, item: Item) returns (ok: bool)
      requires Valid()
      modifies this
      ensures Valid() && ok == ValidKey(key)
      ensures ok ==> configs == old(configs)[key := item.(key := key)]
      ensures !ok ==> configs == old(configs)
      ensures initialized == old(initialized) && stats == old(stats)
    {
      ok := ValidateKey(key);
      if !ok {
        return;
      }
      configs := configs[key := item.(key := key)];
    }

    /** `unregister_config`: succeeds iff the key was present, and removes it. */
    method Unregister(key: string) returns (ok: bool)
      requires Valid()
      modifies this
      ensures Valid() && ok == (key in old(configs))
      ensures configs == old(configs) - {key}
      ensures initialized == old(initialized) && stats == old(stats)
    {
      if key !in configs {
        return false;
      }
      configs := configs - {key};
      return true;
    }

    /** `set_value`: a write to a known, writable key whose bytes pass the
        type and range checks replaces the data, marks the item dirty and
        stamps it; a failed check counts a validation error; every failure
        leaves the store unchanged. */
    method SetValue(key: string, data: seq<byte>) returns (ok: bool)
      requires Valid()
      modifies this
      ensures Valid() && initialized == old(initialized)
      ensures ok <==> old(initialized) && key in old(configs) && AccessAllows(old(configs)[key].access, true)
                      && ValidType(old(configs)[key], data) && ValidRange(old(configs)[key], data)
      ensures ok ==> configs == Written(old(configs), key, data, old(stats).uptimeSeconds)
      ensures ok ==> stats == old(stats).(totalWrites := old(stats).totalWrites + 1)
      ensures !ok ==> configs == old(configs)
      ensures !ok && old(initialized) && key in old(configs) && AccessAllows(old(configs)[key].access, true) ==>
        stats == old(stats).(validationErrors := old(stats).validationErrors + 1)
      ensures !ok && !(old(initialized) && key in old(configs) && AccessAllows(old(configs)[key].access, true)) ==>
        stats == old(stats)
    {
      if !initialized {
        return false;
      }
      if key !in configs {
        return false;
      }
      var item := configs[key];
      if !AccessAllows(item.access, true) {
        return false;
      }
      if !ValidType(item, data) || !ValidRange(item, data) {
        stats := stats.(validationErrors := stats.validationErrors + 1);
        return false;
      }
      configs := configs[key := item.(data := data, dirty := true, lastModified := stats.uptimeSeconds)];
      stats := stats.(totalWrites := stats.totalWrites + 1);
      return true;
    }

    /** `get_value`: the stored bytes of a known, readable key, counting the
        read; nothing otherwise. */
    method GetValue(key: string) returns (r: Option<seq<byte>>)
      requires Valid()
      modifies this
      ensures configs == old(configs) && initialized == old(initialized)
      ensures r.Some? <==> initialized && key in configs && AccessAllows(configs[key].access, false)
      ensures r.Some? ==> r.value == configs[key].data && stats == old(stats).(totalReads := old(stats).totalReads + 1)
      ensures r.None? ==> stats == old(stats)
    {
      if !initialized || key !in configs || !AccessAllows(configs[key].access, false) {
        return None;
      }
      stats := stats.(totalReads := stats.totalReads + 1);
      return Some(configs[key].data);
    }

    /** `set_uint16` then `get_uint16`: the typed setters store the encoding
        and the getters decode it. */
    method SetU16(key: string, v: u16) returns (ok: bool)
      requires Valid()
      modifies this
      ensures Valid()
      ensures ok ==> key in configs && DecodeU16(configs[key].data) == Some(v)
      ensures !ok ==> configs == old(configs)
    {
      ok := SetValue(key, EncodeU16(v));
      if ok {
        U16RoundTrip(v);
      }
    }

    method GetU16(key: string) returns (r: Option<u16>)
      requires Valid()
      modifies this
      ensures configs == old(configs)
      ensures r.Some? ==> key in configs && DecodeU16(configs[key].data) == r
    {
      var data := GetValue(key);
      if data.None? {
        return None;
      }
      r := DecodeU16(data.value);
    }

    /** `reset_to_default`: a known key gets its default data back and is
        marked dirty; an unknown key fails and changes nothing. */
    method ResetToDefault(key: string) returns (ok: bool)
      requires Valid()
      modifies this
      ensures Valid() && ok == (key in old(configs))
      ensures ok ==> configs == Written(old(configs), key, old(configs)[key].defaultData, stats.uptimeSeconds)
      ensures !ok ==> configs == old(configs)
      ensures stats == old(stats) && initialized == old(initialized)
    {
      if key !in configs {
        return false;
      }
      var item := configs[key];
      configs := configs[key := item.(data := item.defaultData, dirty := true, lastModified := stats.uptimeSeconds)];
      return true;
    }

    /** `reset_all_to_default`: every item gets its default data back and is
        marked dirty, and no key is added or removed. */
    method ResetAllToDefault()
      requires Valid()
      modifies this
      ensures Valid() && configs.Keys == old(configs).Keys
      ensures forall k :: k in configs ==>
        configs[k] == old(configs)[k].(data := old(configs)[k].defaultData, dirty := true, lastModified := stats.uptimeSeconds)
      ensures stats == old(stats) && initialized == old(initialized)
    {
      var todo := configs.Keys;
      ghost var start := configs;
      while todo != {}
        invariant todo <= configs.Keys && configs.Keys == start.Keys && Valid()
        invariant stats == old(stats) && initialized == old(initialized)
        invariant forall k :: k in configs && k !in todo ==>
          configs[k] == start[k].(data := start[k].defaultData, dirty := true, lastModified := stats.uptimeSeconds)
        invariant forall k :: k in todo ==> configs[k] == start[k]
        decreases todo
      {
        var k :| k in todo;
        var item := configs[k];
        configs := configs[k := item.(data := item.defaultData, dirty := true, lastModified := stats.uptimeSeconds)];
        todo := todo - {k};
      }
    }
  }

  /** After a successful write, the item reads back the written bytes and
      no other item changes. */
  lemma WrittenReadsBack(configs: map<string, Item>, key: string, data: seq<byte>, now: u32, other: string)
    requires key in configs
    ensures Written(configs, key, data, now)[key].data == data
    ensures Written(configs, key, data, now).Keys == configs.Keys
    ensures other != key && other in configs ==> Written(configs, key, data, now)[other] == configs[other]
  {
  }
}
