/** `InputMappingManager` (`input_mapping_manager.cpp`): three maps keyed by
    (device address, channel) that send a touched channel to a maimai serial
    area, to an HID coordinate or to a keyboard key. A key is in at most one
    of the three maps.

    The three mapping structs share their key fields, so the model uses one
    datatype with a constructor per struct; the coordinates of an HID
    mapping are reals. */
module InputMapping {
  import opened Common

  datatype MappingType = SERIAL | HID | KEYBOARD

  /** `MappingKey`. */
  datatype MappingKey = MappingKey(addr: u16, channel: byte)

  /** `SerialMapping`, `HIDMapping` and `KeyboardMapping`. */
  datatype Mapping =
    | Serial(addr: u16, channel: byte, area: nat)
    | Hid(addr: u16, channel: byte, x: real, y: real)
    | Keyboard(addr: u16, channel: byte, key: nat)

  /** `MAI2_NO_USED` and `HID_KeyCode::KEY_NONE`. */
  const NO_USED: nat := 0
  const KEY_NONE: nat := 0

  function KeyOf(m: Mapping): MappingKey
  {
    MappingKey(m.addr, m.channel)
  }

  function TypeOf(m: Mapping): MappingType
  {
    match m
    case Serial(_, _, _) => SERIAL
    case Hid(_, _, _, _) => HID
    case Keyboard(_, _, _) => KEYBOARD
  }

  /** The three maps of the manager. */
  datatype Tables = Tables(
    serial: map<MappingKey, Mapping>, hid: map<MappingKey, Mapping>, keyboard: map<MappingKey, Mapping>)

  const EMPTY: Tables := Tables(map[], map[], map[])

  function Table(t: Tables, ty: MappingType): map<MappingKey, Mapping>
  {
    match ty
    case SERIAL => t.serial
    case HID => t.hid
    case KEYBOARD => t.keyboard
  }

  function WithTable(t: Tables, ty: MappingType, m: map<MappingKey, Mapping>): (r: Tables)
    ensures Table(r, ty) == m
    ensures forall ty' :: ty' != ty ==> Table(r, ty') == Table(t, ty')
  {
    match ty
    case SERIAL => t.(serial := m)
    case HID => t.(hid := m)
    case KEYBOARD => t.(keyboard := m)
  }

  /** `isValidMapping`: a nonzero address and a channel below 32. */
  predicate ValidKey(addr: u16, channel: byte)
  {
    addr != 0 && channel < 32
  }

  /** What an add accepts: a valid key, and a serial area other than
      `NO_USED`, coordinates in [0, 1], or a key other than `KEY_NONE`. */
  predicate Acceptable(m: Mapping)
  {
    ValidKey(m.addr, m.channel) &&
    match m
    case Serial(_, _, area) => area != NO_USED
    case Hid(_, _, x, y) => 0.0 <= x <= 1.0 && 0.0 <= y <= 1.0
    case Keyboard(_, _, key) => key != KEY_NONE
  }

  /** No key is in two maps. */
  ghost predicate Exclusive(t: Tables)
  {
    forall k :: (k in t.serial ==> k !in t.hid && k !in t.keyboard) && (k in t.hid ==> k !in t.keyboard)
  }

  /** Every entry sits under its own key, in the map of its type, and was
      acceptable when added; and no key is in two maps. */
  ghost predicate Good(t: Tables)
  {
    Exclusive(t) &&
    forall ty, k :: k in Table(t, ty) ==>
      KeyOf(Table(t, ty)[k]) == k && TypeOf(Table(t, ty)[k]) == ty && Acceptable(Table(t, ty)[k])
  }

  /** The shared part of the three adds: refuse a key another map holds,
      otherwise store the mapping (replacing one of the same type). */
  function Insert(t: Tables, m: Mapping): (r: (bool, Tables))
    ensures r.0 <==> forall ty :: ty != TypeOf(m) ==> KeyOf(m) !in Table(t, ty)
    ensures !r.0 ==> r.1 == t
    ensures r.0 ==> Table(r.1, TypeOf(m)) == Table(t, TypeOf(m))[KeyOf(m) := m]
    ensures forall ty :: ty != TypeOf(m) ==> Table(r.1, ty) == Table(t, ty)
  {
    var k := KeyOf(m);
    assert Table(t, SERIAL) == t.serial && Table(t, HID) == t.hid && Table(t, KEYBOARD) == t.keyboard;
    match m
    case Serial(_, _, _) => if k in t.hid || k in t.keyboard then (false, t) else (true, t.(serial := t.serial[k := m]))
    case Hid(_, _, _, _) => if k in t.serial || k in t.keyboard then (false, t) else (true, t.(hid := t.hid[k := m]))
    case Keyboard(_, _, _) => if k in t.serial || k in t.hid then (false, t) else (true, t.(keyboard := t.keyboard[k := m]))
  }

  /** `addSerialMapping`. */
  function AddSerial(t: Tables, addr: u16, channel: byte, area: nat): (r: (bool, Tables))
    ensures r.0 <==> (ValidKey(addr, channel) && area != NO_USED &&
                      MappingKey(addr, channel) !in t.hid && MappingKey(addr, channel) !in t.keyboard)
  {
    if !ValidKey(addr, channel) || area == NO_USED then (false, t) else Insert(t, Serial(addr, channel, area))
  }

  /** `addHIDMapping`. */
  function AddHid(t: Tables, addr: u16, channel: byte, x: real, y: real): (r: (bool, Tables))
    ensures r.0 <==> (ValidKey(addr, channel) && 0.0 <= x <= 1.0 && 0.0 <= y <= 1.0 &&
                      MappingKey(addr, channel) !in t.serial && MappingKey(addr, channel) !in t.keyboard)
  {
    if !ValidKey(addr, channel) || x < 0.0 || x > 1.0 || y < 0.0 || y > 1.0 then (false, t)
    else Insert(t, Hid(addr, channel, x, y))
  }

  /** `addKeyboardMapping`. */
  function AddKeyboard(t: Tables, addr: u16, channel: byte, key: nat): (r: (bool, Tables))
    ensures r.0 <==> (ValidKey(addr, channel) && key != KEY_NONE &&
                      MappingKey(addr, channel) !in t.serial && MappingKey(addr, channel) !in t.hid)
  {
    if !ValidKey(addr, channel) || key == KEY_NONE then (false, t) else Insert(t, Keyboard(addr, channel, key))
  }

  /** The add a mapping value goes through. */
  function Add(t: Tables, m: Mapping): (r: (bool, Tables))
    ensures r.0 <==> Acceptable(m) && forall ty :: ty != TypeOf(m) ==> KeyOf(m) !in Table(t, ty)
    ensures r == if Acceptable(m) then Insert(t, m) else (false, t)
  {
    match m
    case Serial(addr, channel, area) => AddSerial(t, addr, channel, area)
    case Hid(addr, channel, x, y) => AddHid(t, addr, channel, x, y)
    case Keyboard(addr, channel, key) => AddKeyboard(t, addr, channel, key)
  }

  /** `removeSerialMapping`, `removeHIDMapping`, `removeKeyboardMapping`. */
  function Remove(t: Tables, ty: MappingType, addr: u16, channel: byte): (r: (bool, Tables))
    ensures r.0 <==> MappingKey(addr, channel) in Table(t, ty)
    ensures Table(r.1, ty) == Table(t, ty) - {MappingKey(addr, channel)}
    ensures forall ty' :: ty' != ty ==> Table(r.1, ty') == Table(t, ty')
  {
    var k := MappingKey(addr, channel);
    if k !in Table(t, ty) then (false, t) else (true, WithTable(t, ty, Table(t, ty) - {k}))
  }

  /** `getSerialMapping`: the area, or `NO_USED`. */
  function GetSerial(t: Tables, addr: u16, channel: byte): nat
    requires Good(t)
  {
    var k := MappingKey(addr, channel);
    if k in t.serial then
      assert TypeOf(Table(t, SERIAL)[k]) == SERIAL;
      t.serial[k].area
    else NO_USED
  }

  /** `getHIDMapping`: the mapping, or the default-constructed one. */
  function GetHid(t: Tables, addr: u16, channel: byte): Mapping
  {
    var k := MappingKey(addr, channel);
    if k in t.hid then t.hid[k] else Hid(0, 0, 0.0, 0.0)
  }

  /** `getKeyboardMapping`: the key, or `KEY_NONE`. */
  function GetKeyboard(t: Tables, addr: u16, channel: byte): nat
    requires Good(t)
  {
    var k := MappingKey(addr, channel);
    if k in t.keyboard then
      assert TypeOf(Table(t, KEYBOARD)[k]) == KEYBOARD;
      t.keyboard[k].key
    else KEY_NONE
  }

  /** A get after a successful add returns what was added; a get after a
      remove returns the default. */
  lemma GetAfterAddAndRemove(t: Tables, addr: u16, channel: byte, area: nat, x: real, y: real, key: nat)
    requires Good(t)
    ensures var r := AddSerial(t, addr, channel, area); r.0 ==> Good(r.1) && GetSerial(r.1, addr, channel) == area
    ensures var r := AddHid(t, addr, channel, x, y); r.0 ==> GetHid(r.1, addr, channel) == Hid(addr, channel, x, y)
    ensures var r := AddKeyboard(t, addr, channel, key); r.0 ==> Good(r.1) && GetKeyboard(r.1, addr, channel) == key
    ensures var r := Remove(t, SERIAL, addr, channel); Good(r.1) && GetSerial(r.1, addr, channel) == NO_USED
    ensures GetHid(Remove(t, HID, addr, channel).1, addr, channel) == Hid(0, 0, 0.0, 0.0)
    ensures var r := Remove(t, KEYBOARD, addr, channel); Good(r.1) && GetKeyboard(r.1, addr, channel) == KEY_NONE
  {
    AddKeepsGood(t, Serial(addr, channel, area));
    AddKeepsGood(t, Keyboard(addr, channel, key));
    RemoveKeepsGood(t, SERIAL, addr, channel);
    RemoveKeepsGood(t, KEYBOARD, addr, channel);
  }

  /** Adding keeps the maps good: the exclusivity check is what keeps a key
      out of a second map. */
  lemma AddKeepsGood(t: Tables, m: Mapping)
    requires Good(t)
    ensures Good(Add(t, m).1)
  {
    var r := Add(t, m);
    if r.0 {
      var ty := TypeOf(m);
      forall ty', k | k in Table(r.1, ty')
        ensures KeyOf(Table(r.1, ty')[k]) == k && TypeOf(Table(r.1, ty')[k]) == ty' && Acceptable(Table(r.1, ty')[k])
      {
        if ty' != ty || k != KeyOf(m) {
          assert Table(r.1, ty')[k] == Table(t, ty')[k];
        }
      }
      forall k ensures (k in r.1.serial ==> k !in r.1.hid && k !in r.1.keyboard) && (k in r.1.hid ==> k !in r.1.keyboard) {
        if k != KeyOf(m) {
          assert k in r.1.serial <==> k in t.serial;
          assert k in r.1.hid <==> k in t.hid;
          assert k in r.1.keyboard <==> k in t.keyboard;
        } else {
          assert k in Table(r.1, ty);
          assert forall ty' :: ty' != ty ==> k !in Table(r.1, ty');
        }
      }
    }
  }

  lemma RemoveKeepsGood(t: Tables, ty: MappingType, addr: u16, channel: byte)
    requires Good(t)
    ensures Good(Remove(t, ty, addr, channel).1)
  {
    var r := Remove(t, ty, addr, channel);
    forall ty' | true ensures Table(r.1, ty').Keys <= Table(t, ty').Keys {
    }
    forall ty', k | k in Table(r.1, ty') ensures Table(r.1, ty')[k] == Table(t, ty')[k] {
    }
  }

  /** Adding to a key that no map holds and removing it again gives back
      the maps. */
  lemma AddThenRemove(t: Tables, m: Mapping)
    requires forall ty :: KeyOf(m) !in Table(t, ty)
    requires Acceptable(m)
    ensures Remove(Add(t, m).1, TypeOf(m), m.addr, m.channel) == (true, t)
  {
    var r := Add(t, m).1;
    var back := Remove(r, TypeOf(m), m.addr, m.channel).1;
    assert Table(back, TypeOf(m)) == Table(t, TypeOf(m));
    assert forall ty :: Table(back, ty) == Table(t, ty);
    assert back.serial == t.serial && back.hid == t.hid && back.keyboard == t.keyboard;
  }

  /** A map without the entries of device `addr`. */
  function DropDevice(m: map<MappingKey, Mapping>, addr: u16): (r: map<MappingKey, Mapping>)
    ensures forall k :: k in r <==> k in m && k.addr != addr
    ensures forall k :: k in r ==> r[k] == m[k]
  {
    map k | k in m && k.addr != addr :: m[k]
  }

  /** `clearDeviceMappings`: all three maps lose that device's entries. */
  function ClearDevice(t: Tables, addr: u16): Tables
  {
    Tables(DropDevice(t.serial, addr), DropDevice(t.hid, addr), DropDevice(t.keyboard, addr))
  }

  /** Clearing a device keeps the maps good, leaves that device unmapped
      and every other device's mappings as they were. */
  lemma ClearDeviceMeaning(t: Tables, addr: u16, addr': u16, channel: byte)
    requires Good(t)
    ensures Good(ClearDevice(t, addr))
    ensures forall ty :: (MappingKey(addr', channel) in Table(ClearDevice(t, addr), ty) <==>
      addr' != addr && MappingKey(addr', channel) in Table(t, ty))
    ensures addr' != addr ==> forall ty :: MappingKey(addr', channel) in Table(t, ty) ==>
      Table(ClearDevice(t, addr), ty)[MappingKey(addr', channel)] == Table(t, ty)[MappingKey(addr', channel)]
  {
    var r := ClearDevice(t, addr);
    forall ty', k | k in Table(r, ty') ensures k in Table(t, ty') && Table(r, ty')[k] == Table(t, ty')[k] {
    }
  }

  /** `clearMappingsByType`. */
  function ClearType(t: Tables, ty: MappingType): (r: Tables)
    ensures Table(r, ty) == map[]
    ensures forall ty' :: ty' != ty ==> Table(r, ty') == Table(t, ty')
  {
    WithTable(t, ty, map[])
  }

  lemma ClearTypeKeepsGood(t: Tables, ty: MappingType)
    requires Good(t)
    ensures Good(ClearType(t, ty))
  {
    var r := ClearType(t, ty);
    forall ty', k | k in Table(r, ty')
      ensures KeyOf(Table(r, ty')[k]) == k && TypeOf(Table(r, ty')[k]) == ty' && Acceptable(Table(r, ty')[k])
    {
      assert ty' != ty && Table(r, ty') == Table(t, ty');
    }
  }

  /** `hasMapping`. */
  predicate HasMapping(t: Tables, addr: u16, channel: byte, ty: MappingType)
  {
    MappingKey(addr, channel) in Table(t, ty)
  }

  /** `getMappingType`: the map holding the key, looked up serial first;
      `SERIAL` when none does. */
  function MappingTypeOf(t: Tables, addr: u16, channel: byte): (ty: MappingType)
    ensures HasMapping(t, addr, channel, ty) || (ty == SERIAL && forall ty' :: !HasMapping(t, addr, channel, ty'))
  {
    var k := MappingKey(addr, channel);
    if k in t.serial then SERIAL else if k in t.hid then HID else if k in t.keyboard then KEYBOARD else SERIAL
  }

  /** `getMappingCount`. */
  function MappingCount(t: Tables, ty: MappingType): nat
  {
    |Table(t, ty)|
  }

  /** What `processTouch` hands to a callback: the serial area, the HID
      coordinate or the key, with the press state; or nothing. */
  datatype Notice =
    | SerialNotice(area: nat, pressed: bool)
    | HidNotice(x: real, y: real, pressed: bool)
    | KeyNotice(key: nat, pressed: bool)
    | NoNotice

  /** `processTouch`: serial first, then HID, then keyboard, stopping at the
      first map that holds the key. */
  function ProcessTouch(t: Tables, addr: u16, channel: byte, pressed: bool): Notice
    requires Good(t)
  {
    var k := MappingKey(addr, channel);
    if k in t.serial then
      assert TypeOf(Table(t, SERIAL)[k]) == SERIAL;
      SerialNotice(t.serial[k].area, pressed)
    else if k in t.hid then
      assert TypeOf(Table(t, HID)[k]) == HID;
      HidNotice(t.hid[k].x, t.hid[k].y, pressed)
    else if k in t.keyboard then
      assert TypeOf(Table(t, KEYBOARD)[k]) == KEYBOARD;
      KeyNotice(t.keyboard[k].key, pressed)
    else NoNotice
  }

  /** On good maps the touch reaches exactly the mapping its key has, of
      the type `getMappingType` reports, and nothing when it has none. */
  lemma ProcessTouchMeaning(t: Tables, addr: u16, channel: byte, pressed: bool)
    requires Good(t)
    ensures var n := ProcessTouch(t, addr, channel, pressed); var ty := MappingTypeOf(t, addr, channel);
      (n == NoNotice <==> forall ty' :: !HasMapping(t, addr, channel, ty')) &&
      (n.SerialNotice? ==> ty == SERIAL && n.area == GetSerial(t, addr, channel) && n.area != NO_USED) &&
      (n.HidNotice? ==> ty == HID && GetHid(t, addr, channel) == Hid(addr, channel, n.x, n.y)) &&
      (n.KeyNotice? ==> ty == KEYBOARD && n.key == GetKeyboard(t, addr, channel) && n.key != KEY_NONE) &&
      (n != NoNotice ==> n.pressed == pressed)
  {
    var k := MappingKey(addr, channel);
    if k in t.serial {
      assert HasMapping(t, addr, channel, SERIAL);
      assert KeyOf(Table(t, SERIAL)[k]) == k && TypeOf(Table(t, SERIAL)[k]) == SERIAL && Acceptable(Table(t, SERIAL)[k]);
    } else if k in t.hid {
      assert HasMapping(t, addr, channel, HID);
      assert KeyOf(Table(t, HID)[k]) == k && TypeOf(Table(t, HID)[k]) == HID;
      var h := t.hid[k];
      assert h == Hid(h.addr, h.channel, h.x, h.y);
    } else if k in t.keyboard {
      assert HasMapping(t, addr, channel, KEYBOARD);
      assert KeyOf(Table(t, KEYBOARD)[k]) == k && TypeOf(Table(t, KEYBOARD)[k]) == KEYBOARD && Acceptable(Table(t, KEYBOARD)[k]);
    }
  }

  /** `MappingConfig`: the three lists `exportConfig` writes and
      `importConfig` reads. */
  datatype MappingConfig = MappingConfig(serial: seq<Mapping>, hid: seq<Mapping>, keyboard: seq<Mapping>)

  /** `s` lists the entries of `m`, each key once. */
  ghost predicate Lists(m: map<MappingKey, Mapping>, s: seq<Mapping>)
  {
    (forall i :: 0 <= i < |s| ==> KeyOf(s[i]) in m && m[KeyOf(s[i])] == s[i]) &&
    (forall i, j :: 0 <= i < j < |s| ==> KeyOf(s[i]) != KeyOf(s[j])) &&
    (forall k :: k in m ==> k in KeySet(s))
  }

  /** The keys of the entries of `s`. */
  function KeySet(s: seq<Mapping>): set<MappingKey>
  {
    set i | 0 <= i < |s| :: KeyOf(s[i])
  }

  /** The adds of `importConfig`, in list order. */
  function AddAll(t: Tables, s: seq<Mapping>): Tables
  {
    if s == [] then t else Add(AddAll(t, s[..|s| - 1]), s[|s| - 1]).1
  }

  /** `importConfig`: clear, then add the serial, HID and keyboard lists. */
  function Import(cfg: MappingConfig): Tables
  {
    AddAll(AddAll(AddAll(EMPTY, cfg.serial), cfg.hid), cfg.keyboard)
  }

  /** The map the entries of `s` make, later entries replacing earlier. */
  function Collect(s: seq<Mapping>): map<MappingKey, Mapping>
  {
    if s == [] then map[] else Collect(s[..|s| - 1])[KeyOf(s[|s| - 1]) := s[|s| - 1]]
  }

  /** Adding a list of acceptable entries of one type whose keys the other
      maps do not hold stores each of them. */
  lemma {:induction false} AddAllStores(t: Tables, s: seq<Mapping>, ty: MappingType)
    requires forall i :: 0 <= i < |s| ==> TypeOf(s[i]) == ty && Acceptable(s[i])
    requires forall i, ty' :: 0 <= i < |s| && ty' != ty ==> KeyOf(s[i]) !in Table(t, ty')
    ensures AddAll(t, s) == WithTable(t, ty, Table(t, ty) + Collect(s))
    decreases |s|
  {
    if s != [] {
      var init := s[..|s| - 1];
      AddAllStores(t, init, ty);
      AddOneStores(t, init, s[|s| - 1], ty);
      assert init + [s[|s| - 1]] == s;
    }
  }

  lemma AddOneStores(t: Tables, init: seq<Mapping>, m: Mapping, ty: MappingType)
    requires TypeOf(m) == ty && Acceptable(m)
    requires forall ty' :: ty' != ty ==> KeyOf(m) !in Table(t, ty')
    ensures Add(WithTable(t, ty, Table(t, ty) + Collect(init)), m).1 == WithTable(t, ty, Table(t, ty) + Collect(init + [m]))
  {
    var r := WithTable(t, ty, Table(t, ty) + Collect(init));
    var a := Add(r, m).1;
    assert (init + [m])[..|init|] == init;
    var c := Collect(init + [m]);
    assert c == Collect(init)[KeyOf(m) := m];
    assert Table(a, ty) == (Table(t, ty) + Collect(init))[KeyOf(m) := m];
    assert Table(a, ty) == Table(t, ty) + c;
    SameTables(a, WithTable(t, ty, Table(t, ty) + c));
  }

  lemma SameTables(a: Tables, b: Tables)
    requires forall ty :: Table(a, ty) == Table(b, ty)
    ensures a == b
  {
    assert Table(a, SERIAL) == Table(b, SERIAL);
    assert Table(a, HID) == Table(b, HID);
    assert Table(a, KEYBOARD) == Table(b, KEYBOARD);
  }

  lemma KeySetAppend(s: seq<Mapping>, m: Mapping)
    ensures KeySet(s + [m]) == KeySet(s) + {KeyOf(m)}
    ensures forall i :: 0 <= i < |s| ==> KeyOf(s[i]) in KeySet(s)
  {
    assert forall i :: 0 <= i < |s| ==> (s + [m])[i] == s[i];
    assert (s + [m])[|s|] == m;
  }

  /** A listing of a map collects back to the map. */
  lemma {:induction false} CollectListing(s: seq<Mapping>)
    requires forall i, j :: 0 <= i < j < |s| ==> KeyOf(s[i]) != KeyOf(s[j])
    ensures forall i :: 0 <= i < |s| ==> KeyOf(s[i]) in Collect(s) && Collect(s)[KeyOf(s[i])] == s[i]
    ensures Collect(s).Keys == KeySet(s)
    decreases |s|
  {
    if s != [] {
      var init := s[..|s| - 1];
      CollectListing(init);
      KeySetAppend(init, s[|s| - 1]);
      assert init + [s[|s| - 1]] == s;
    }
  }

  lemma CollectIsMap(m: map<MappingKey, Mapping>, s: seq<Mapping>)
    requires Lists(m, s)
    ensures Collect(s) == m
  {
    CollectListing(s);
    forall k | k in m ensures k in Collect(s) && Collect(s)[k] == m[k] {
      var i :| 0 <= i < |s| && KeyOf(s[i]) == k;
    }
  }

  /** Importing what was exported from good maps gives back the maps. */
  lemma ExportImportRoundTrip(t: Tables, cfg: MappingConfig)
    requires Good(t)
    requires Lists(t.serial, cfg.serial) && Lists(t.hid, cfg.hid) && Lists(t.keyboard, cfg.keyboard)
    ensures Import(cfg) == t
  {
    var t1 := Tables(t.serial, map[], map[]);
    var t2 := Tables(t.serial, t.hid, map[]);
    ImportStage(t, EMPTY, SERIAL, cfg.serial);
    assert WithTable(EMPTY, SERIAL, t.serial) == t1;
    ImportStage(t, t1, HID, cfg.hid);
    assert WithTable(t1, HID, t.hid) == t2;
    ImportStage(t, t2, KEYBOARD, cfg.keyboard);
    assert WithTable(t2, KEYBOARD, t.keyboard) == t;
  }

  /** One list of an import, into maps where that type's map is empty and
      every other map is empty or as in `t`. */
  lemma ImportStage(t: Tables, b: Tables, ty: MappingType, s: seq<Mapping>)
    requires Good(t) && Lists(Table(t, ty), s)
    requires Table(b, ty) == map[]
    requires forall ty' :: ty' != ty ==> Table(b, ty') == map[] || Table(b, ty') == Table(t, ty')
    ensures AddAll(b, s) == WithTable(b, ty, Table(t, ty))
  {
    ListedEntries(t, ty, s);
    CollectIsMap(Table(t, ty), s);
    AddAllStores(b, s, ty);
    assert map[] + Collect(s) == Collect(s);
  }

  /** The entries a listing of a good map of type `ty` holds are of that
      type, acceptable, and held by no other map. */
  lemma ListedEntries(t: Tables, ty: MappingType, s: seq<Mapping>)
    requires Good(t) && Lists(Table(t, ty), s)
    ensures forall i :: 0 <= i < |s| ==> TypeOf(s[i]) == ty && Acceptable(s[i])
    ensures forall i, ty' :: 0 <= i < |s| && ty' != ty ==> KeyOf(s[i]) !in Table(t, ty')
  {
    forall i | 0 <= i < |s| ensures TypeOf(s[i]) == ty && Acceptable(s[i]) {
      var k := KeyOf(s[i]);
      assert k in Table(t, ty) && Table(t, ty)[k] == s[i];
    }
  }

  /** The erase-while-iterating loop of `clearDeviceMappings` on one map. */
  method DropDeviceEntries(m: map<MappingKey, Mapping>, addr: u16) returns (r: map<MappingKey, Mapping>)
    ensures r == DropDevice(m, addr)
  {
    r := m;
    var todo := m.Keys;
    while todo != {}
      invariant todo <= m.Keys
      invariant forall k :: k in r <==> k in m && (k in todo || k.addr != addr)
      invariant forall k :: k in r ==> r[k] == m[k]
      decreases |todo|
    {
      var k :| k in todo;
      if k.addr == addr {
        r := r - {k};
      }
      todo := todo - {k};
    }
  }

  /** One step of `Listing`: appending an entry whose key is not listed yet
      keeps the entries matching and their keys distinct. */
  lemma ListedStep(m: map<MappingKey, Mapping>, s: seq<Mapping>, k: MappingKey)
    requires k in m && KeyOf(m[k]) == k && k !in KeySet(s)
    requires forall i :: 0 <= i < |s| ==> KeyOf(s[i]) in m && m[KeyOf(s[i])] == s[i]
    requires forall i, j :: 0 <= i < j < |s| ==> KeyOf(s[i]) != KeyOf(s[j])
    ensures KeySet(s + [m[k]]) == KeySet(s) + {k}
    ensures forall i :: 0 <= i < |s| + 1 ==> KeyOf((s + [m[k]])[i]) in m && m[KeyOf((s + [m[k]])[i])] == (s + [m[k]])[i]
    ensures forall i, j :: 0 <= i < j < |s| + 1 ==> KeyOf((s + [m[k]])[i]) != KeyOf((s + [m[k]])[j])
  {
    KeySetAppend(s, m[k]);
  }

  /** The loop of `getAll...Mappings`: every entry of the map once. */
  method Listing(m: map<MappingKey, Mapping>) returns (s: seq<Mapping>)
    requires forall k :: k in m ==> KeyOf(m[k]) == k
    ensures Lists(m, s)
  {
    s := [];
    var todo := m.Keys;
    while todo != {}
      invariant todo <= m.Keys && KeySet(s) == m.Keys - todo
      invariant forall i :: 0 <= i < |s| ==> KeyOf(s[i]) in m && m[KeyOf(s[i])] == s[i]
      invariant forall i, j :: 0 <= i < j < |s| ==> KeyOf(s[i]) != KeyOf(s[j])
      decreases |todo|
    {
      var k :| k in todo;
      ListedStep(m, s, k);
      s := s + [m[k]];
      todo := todo - {k};
    }
  }

  /** `serial_mappings_`, `hid_mappings_` and `keyboard_mappings_`. */
  class MappingManager {
    var serial: map<MappingKey, Mapping>
    var hid: map<MappingKey, Mapping>
    var keyboard: map<MappingKey, Mapping>

    function State(): Tables
      reads this
    {
      Tables(serial, hid, keyboard)
    }

    ghost predicate Valid()
      reads this
    {
      Good(State())
    }

    constructor ()
      ensures Valid() && State() == EMPTY
    {
      serial := map[];
      hid := map[];
      keyboard := map[];
    }

    /** `addSerialMapping`. */
    method AddSerialMapping(addr: u16, channel: byte, area: nat) returns (ok: bool)
      requires Valid()
      modifies this
      ensures Valid() && (ok, State()) == AddSerial(old(State()), addr, channel, area)
    {
      AddKeepsGood(State(), Serial(addr, channel, area));
      if !ValidKey(addr, channel) || area == NO_USED {
        return false;
      }
      var k := MappingKey(addr, channel);
      if k in hid || k in keyboard {
        return false;
      }
      serial := serial[k := Serial(addr, channel, area)];
      return true;
    }

    /** `addHIDMapping`. */
    method AddHidMapping(addr: u16, channel: byte, x: real, y: real) returns (ok: bool)
      requires Valid()
      modifies this
      ensures Valid() && (ok, State()) == AddHid(old(State()), addr, channel, x, y)
    {
      AddKeepsGood(State(), Hid(addr, channel, x, y));
      if !ValidKey(addr, channel) || x < 0.0 || x > 1.0 || y < 0.0 || y > 1.0 {
        return false;
      }
      var k := MappingKey(addr, channel);
      if k in serial || k in keyboard {
        return false;
      }
      hid := hid[k := Hid(addr, channel, x, y)];
      return true;
    }

    /** `addKeyboardMapping`. */
    method AddKeyboardMapping(addr: u16, channel: byte, key: nat) returns (ok: bool)
      requires Valid()
      modifies this
      ensures Valid() && (ok, State()) == AddKeyboard(old(State()), addr, channel, key)
    {
      AddKeepsGood(State(), Keyboard(addr, channel, key));
      if !ValidKey(addr, channel) || key == KEY_NONE {
        return false;
      }
      var k := MappingKey(addr, channel);
      if k in serial || k in hid {
        return false;
      }
      keyboard := keyboard[k := Keyboard(addr, channel, key)];
      return true;
    }

    /** `removeSerialMapping`, `removeHIDMapping` and `removeKeyboardMapping`. */
    method RemoveMapping(ty: MappingType, addr: u16, channel: byte) returns (ok: bool)
      requires Valid()
      modifies this
      ensures Valid() && (ok, State()) == Remove(old(State()), ty, addr, channel)
    {
      RemoveKeepsGood(State(), ty, addr, channel);
      var k := MappingKey(addr, channel);
      match ty {
        case SERIAL =>
          if k !in serial { return false; }
          serial := serial - {k};
        case HID =>
          if k !in hid { return false; }
          hid := hid - {k};
        case KEYBOARD =>
          if k !in keyboard { return false; }
          keyboard := keyboard - {k};
      }
      return true;
    }

    /** `clearAllMappings`. */
    method ClearAll()
      modifies this
      ensures Valid() && State() == EMPTY
    {
      serial := map[];
      hid := map[];
      keyboard := map[];
    }

    /** `clearDeviceMappings`. */
    method ClearDeviceMappings(addr: u16)
      requires Valid()
      modifies this
      ensures Valid() && State() == ClearDevice(old(State()), addr)
    {
      ClearDeviceMeaning(State(), addr, addr, 0);
      serial := DropDeviceEntries(serial, addr);
      hid := DropDeviceEntries(hid, addr);
      keyboard := DropDeviceEntries(keyboard, addr);
    }

    /** `clearMappingsByType`. */
    method ClearMappingsByType(ty: MappingType)
      requires Valid()
      modifies this
      ensures Valid() && State() == ClearType(old(State()), ty)
    {
      ClearTypeKeepsGood(State(), ty);
      match ty
      case SERIAL => serial := map[];
      case HID => hid := map[];
      case KEYBOARD => keyboard := map[];
    }

    /** `exportConfig`. */
    method ExportConfig() returns (cfg: MappingConfig)
      requires Valid()
      ensures Lists(serial, cfg.serial) && Lists(hid, cfg.hid) && Lists(keyboard, cfg.keyboard)
    {
      assert forall ty, k :: k in Table(State(), ty) ==> KeyOf(Table(State(), ty)[k]) == k;
      assert forall k :: k in serial ==> k in Table(State(), SERIAL);
      assert forall k :: k in hid ==> k in Table(State(), HID);
      assert forall k :: k in keyboard ==> k in Table(State(), KEYBOARD);
      var s := Listing(serial);
      var h := Listing(hid);
      var k := Listing(keyboard);
      cfg := MappingConfig(s, h, k);
    }

    /** One list entry of `importConfig`, through the add of its type. */
    method AddEntry(m: Mapping)
      requires Valid()
      modifies this
      ensures Valid() && State() == Add(old(State()), m).1
    {
      match m
      case Serial(addr, channel, area) => var _ := AddSerialMapping(addr, channel, area);
      case Hid(addr, channel, x, y) => var _ := AddHidMapping(addr, channel, x, y);
      case Keyboard(addr, channel, key) => var _ := AddKeyboardMapping(addr, channel, key);
    }

    /** The adds of one list of `importConfig`. */
    method AddEntries(s: seq<Mapping>)
      requires Valid()
      modifies this
      ensures Valid() && State() == AddAll(old(State()), s)
    {
      var i := 0;
      while i < |s|
        invariant i <= |s| && Valid() && State() == AddAll(old(State()), s[..i])
      {
        assert s[..i + 1][..i] == s[..i];
        AddEntry(s[i]);
        i := i + 1;
      }
      assert s[..i] == s;
    }

    /** `importConfig`: clear everything, then add the three lists. */
    method ImportConfig(cfg: MappingConfig) returns (ok: bool)
      modifies this
      ensures ok && Valid() && State() == Import(cfg)
    {
      ClearAll();
      AddEntries(cfg.serial);
      AddEntries(cfg.hid);
      AddEntries(cfg.keyboard);
      return true;
    }
  }
}
