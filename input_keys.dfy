/** The logical-key table of the input manager (`input_manager.cpp`): each
    entry binds a GPIO to up to three HID key codes, held in three slots of
    which `KEY_NONE` marks the free ones, with `key_count` counting the keys
    the entry holds. */
module InputKeys {
  import opened Common

  /** `HID_KeyCode::KEY_NONE`: a free slot. Key codes are naturals. */
  const KEY_NONE: nat := 0

  /** `LogicalKeyMapping`: a GPIO, its three key slots and `key_count`. */
  datatype KeyMapping = KeyMapping(gpio: byte, keys: seq<nat>, count: byte)

  /** `uint8_t` arithmetic on `key_count`. */
  function Wrap8(x: int): (r: byte)
    ensures 0 <= x < 0x100 ==> r == x
  {
    x % 0x100
  }

  /** The first entry at or after `i` for `gpio`: the range-for loops and
      `std::find_if` over the vector. */
  function FindGpioFrom(ms: seq<KeyMapping>, gpio: byte, i: nat): (r: Option<nat>)
    requires i <= |ms|
    ensures r.Some? ==> i <= r.value < |ms| && ms[r.value].gpio == gpio
    ensures r.Some? ==> forall j :: i <= j < r.value ==> ms[j].gpio != gpio
    ensures r.None? <==> forall j :: i <= j < |ms| ==> ms[j].gpio != gpio
    decreases |ms| - i
  {
    if i == |ms| then None
    else if ms[i].gpio == gpio then Some(i)
    else FindGpioFrom(ms, gpio, i + 1)
  }

  function FindGpio(ms: seq<KeyMapping>, gpio: byte): Option<nat>
  {
    FindGpioFrom(ms, gpio, 0)
  }

  /** The first slot at or after `s` that holds `key`. */
  function SlotFrom(keys: seq<nat>, key: nat, s: nat): (r: Option<nat>)
    requires s <= |keys|
    ensures r.Some? ==> s <= r.value < |keys| && keys[r.value] == key
    ensures r.Some? ==> forall t :: s <= t < r.value ==> keys[t] != key
    ensures r.None? <==> forall t :: s <= t < |keys| ==> keys[t] != key
    decreases |keys| - s
  {
    if s == |keys| then None
    else if keys[s] == key then Some(s)
    else SlotFrom(keys, key, s + 1)
  }

  /** The first (entry, slot) pair, over entries at or after `i`, whose
      entry is for `gpio` and whose slot holds `key`. */
  function FindKeyFrom(ms: seq<KeyMapping>, gpio: byte, key: nat, i: nat): (r: Option<(nat, nat)>)
    requires i <= |ms|
    ensures r.Some? ==> i <= r.value.0 < |ms| && ms[r.value.0].gpio == gpio
    ensures r.Some? ==> SlotFrom(ms[r.value.0].keys, key, 0) == Some(r.value.1)
    ensures r.None? <==> forall j :: i <= j < |ms| && ms[j].gpio == gpio ==> key !in ms[j].keys
    decreases |ms| - i
  {
    if i == |ms| then None
    else if ms[i].gpio == gpio && SlotFrom(ms[i].keys, key, 0).Some? then Some((i, SlotFrom(ms[i].keys, key, 0).value))
    else FindKeyFrom(ms, gpio, key, i + 1)
  }

  /** `v` without its element `k`: `std::vector::erase`. */
  function Erase<T>(v: seq<T>, k: nat): (r: seq<T>)
    requires k < |v|
    ensures |r| == |v| - 1
    ensures forall j :: 0 <= j < k ==> r[j] == v[j]
    ensures forall j :: k <= j < |r| ==> r[j] == v[j + 1]
  {
    v[..k] + v[k + 1..]
  }

  /** The entry a new GPIO gets: the key in slot 0 and a count of 1. */
  function NewMapping(gpio: byte, key: nat): KeyMapping
  {
    KeyMapping(gpio, [key, KEY_NONE, KEY_NONE], 1)
  }

  /** `addLogicalKeyMapping`: the success flag and the new table. */
  function AddKey(ms: seq<KeyMapping>, gpio: byte, key: nat): (r: (bool, seq<KeyMapping>))
    ensures !r.0 <==> FindGpio(ms, gpio).Some? && KEY_NONE !in ms[FindGpio(ms, gpio).value].keys
    ensures !r.0 ==> r.1 == ms
    ensures r.0 ==> exists i :: 0 <= i < |r.1| && r.1[i].gpio == gpio && key in r.1[i].keys
    ensures FindGpio(ms, gpio).None? ==> r.1 == ms + [NewMapping(gpio, key)]
    ensures FindGpio(ms, gpio).Some? ==> |r.1| == |ms|
  {
    match FindGpio(ms, gpio)
    case None =>
      var ms' := ms + [NewMapping(gpio, key)];
      assert ms'[|ms|].gpio == gpio && ms'[|ms|].keys[0] == key;
      (true, ms')
    case Some(i) =>
      var m := ms[i];
      match SlotFrom(m.keys, KEY_NONE, 0)
      case None => (false, ms)
      case Some(s) =>
        var ms' := ms[i := m.(keys := m.keys[s := key], count := Wrap8(m.count + 1))];
        assert ms'[i].keys[s] == key;
        (true, ms')
  }

  /** `removeLogicalKeyMapping`: the first entry for `gpio` holding `key`
      has that slot freed and its count lowered; at count 0 the first entry
      for `gpio` is erased. */
  function RemoveKey(ms: seq<KeyMapping>, gpio: byte, key: nat): (r: (bool, seq<KeyMapping>))
    ensures r.0 <==> exists i :: 0 <= i < |ms| && ms[i].gpio == gpio && key in ms[i].keys
    ensures !r.0 ==> r.1 == ms
    ensures r.0 ==> |r.1| == |ms| || |r.1| == |ms| - 1
  {
    match FindKeyFrom(ms, gpio, key, 0)
    case None => (false, ms)
    case Some((i, s)) =>
      var m := ms[i].(keys := ms[i].keys[s := KEY_NONE], count := Wrap8(ms[i].count - 1));
      var ms1 := ms[i := m];
      assert ms1[i].gpio == gpio;
      if m.count == 0 then (true, Erase(ms1, FindGpio(ms1, gpio).value)) else (true, ms1)
  }

  /** `clearLogicalKeyMapping`: erase the first entry for `gpio`. */
  function ClearKey(ms: seq<KeyMapping>, gpio: byte): (r: (bool, seq<KeyMapping>))
    ensures r.0 <==> exists i :: 0 <= i < |ms| && ms[i].gpio == gpio
    ensures !r.0 ==> r.1 == ms
    ensures r.0 ==> |r.1| == |ms| - 1
  {
    match FindGpio(ms, gpio)
    case None => (false, ms)
    case Some(i) => (true, Erase(ms, i))
  }

  /** The number of occupied slots. */
  function Occupied(keys: seq<nat>): (n: nat)
    ensures n <= |keys|
  {
    if keys == [] then 0 else (if keys[0] != KEY_NONE then 1 else 0) + Occupied(keys[1..])
  }

  /** An entry has three slots and counts exactly its occupied ones. */
  ghost predicate Consistent(m: KeyMapping)
  {
    |m.keys| == 3 && m.count == Occupied(m.keys)
  }

  /** The table the key operations keep: consistent entries, one per GPIO. */
  ghost predicate Good(ms: seq<KeyMapping>)
  {
    (forall i :: 0 <= i < |ms| ==> Consistent(ms[i])) &&
    (forall i, j :: 0 <= i < j < |ms| ==> ms[i].gpio != ms[j].gpio)
  }

  /** Writing one slot changes the occupied count by what left and what came. */
  lemma {:induction false} OccupiedUpdate(keys: seq<nat>, s: nat, v: nat)
    requires s < |keys|
    ensures Occupied(keys[s := v]) + (if keys[s] != KEY_NONE then 1 else 0)
         == Occupied(keys) + (if v != KEY_NONE then 1 else 0)
    decreases s
  {
    if s > 0 {
      assert keys[s := v][1..] == keys[1..][s - 1 := v];
      OccupiedUpdate(keys[1..], s - 1, v);
    } else {
      assert keys[s := v][1..] == keys[1..];
    }
  }

  /** The entry found for `gpio` is the first one carrying it. */
  lemma FindGpioIs(ms: seq<KeyMapping>, gpio: byte, i: nat)
    requires i < |ms| && ms[i].gpio == gpio
    requires forall j :: 0 <= j < i ==> ms[j].gpio != gpio
    ensures FindGpio(ms, gpio) == Some(i)
  {
  }

  /** Erasing an entry keeps a good table good. */
  lemma EraseKeepsGood(ms: seq<KeyMapping>, k: nat)
    requires Good(ms) && k < |ms|
    ensures Good(Erase(ms, k))
  {
    var r := Erase(ms, k);
    forall i, j | 0 <= i < j < |r| ensures r[i].gpio != r[j].gpio {
      var i' := if i < k then i else i + 1;
      var j' := if j < k then j else j + 1;
      assert r[i] == ms[i'] && r[j] == ms[j'];
    }
  }

  /** Adding a real key keeps every count equal to the keys held and keeps
      one entry per GPIO. */
  lemma AddKeepsGood(ms: seq<KeyMapping>, gpio: byte, key: nat)
    requires Good(ms) && key != KEY_NONE
    ensures Good(AddKey(ms, gpio, key).1)
  {
    match FindGpio(ms, gpio)
    case None =>
      var r := ms + [NewMapping(gpio, key)];
      assert Occupied([key, KEY_NONE, KEY_NONE]) == 1 by {
        var one: seq<nat> := [KEY_NONE];
        var two: seq<nat> := [KEY_NONE, KEY_NONE];
        assert one[1..] == [] && Occupied(one) == 0;
        assert two[1..] == one && Occupied(two) == 0;
        assert [key, KEY_NONE, KEY_NONE][1..] == two;
      }
      assert Consistent(r[|ms|]);
    case Some(i) =>
      match SlotFrom(ms[i].keys, KEY_NONE, 0)
      case None =>
      case Some(s) =>
        OccupiedUpdate(ms[i].keys, s, key);
  }

  /** Removing a real key keeps the table good: the count never wraps and
      an entry left empty is erased. */
  lemma RemoveKeepsGood(ms: seq<KeyMapping>, gpio: byte, key: nat)
    requires Good(ms) && key != KEY_NONE
    ensures Good(RemoveKey(ms, gpio, key).1)
  {
    match FindKeyFrom(ms, gpio, key, 0)
    case None =>
    case Some((i, s)) =>
      OccupiedUpdate(ms[i].keys, s, KEY_NONE);
      var m := ms[i].(keys := ms[i].keys[s := KEY_NONE], count := Wrap8(ms[i].count - 1));
      var ms1 := ms[i := m];
      assert Consistent(m);
      assert Good(ms1);
      if m.count == 0 {
        assert ms1[i].gpio == gpio;
        EraseKeepsGood(ms1, FindGpio(ms1, gpio).value);
      }
  }

  /** Adding a key to a GPIO without an entry and removing it again gives
      back the table. */
  lemma AddThenRemove(ms: seq<KeyMapping>, gpio: byte, key: nat)
    requires FindGpio(ms, gpio).None?
    ensures RemoveKey(AddKey(ms, gpio, key).1, gpio, key) == (true, ms)
  {
    var ms' := ms + [NewMapping(gpio, key)];
    assert FindKeyFrom(ms', gpio, key, |ms|) == Some((|ms|, 0));
    assert FindKeyFrom(ms', gpio, key, 0) == Some((|ms|, 0));
    var emptied := [key, KEY_NONE, KEY_NONE][0 := KEY_NONE];
    assert emptied == [KEY_NONE, KEY_NONE, KEY_NONE];
    var ms1 := ms'[|ms| := NewMapping(gpio, key).(keys := emptied, count := Wrap8(1 - 1))];
    FindGpioIs(ms1, gpio, |ms|);
    assert Erase(ms1, |ms|) == ms;
  }

  /** Removing the last key of a GPIO's entry leaves no entry for it. */
  lemma RemoveLastKey(ms: seq<KeyMapping>, gpio: byte, key: nat, i: nat)
    requires Good(ms) && key != KEY_NONE
    requires i < |ms| && ms[i].gpio == gpio && key in ms[i].keys && ms[i].count == 1
    ensures FindGpio(RemoveKey(ms, gpio, key).1, gpio).None?
    ensures |RemoveKey(ms, gpio, key).1| == |ms| - 1
  {
    var hit := FindKeyFrom(ms, gpio, key, 0);
    assert hit.Some? && hit.value.0 == i;
    var s := hit.value.1;
    OccupiedUpdate(ms[i].keys, s, KEY_NONE);
    var m := ms[i].(keys := ms[i].keys[s := KEY_NONE], count := Wrap8(ms[i].count - 1));
    var ms1 := ms[i := m];
    FindGpioIs(ms1, gpio, i);
    var r := Erase(ms1, i);
    forall j | 0 <= j < |r| ensures r[j].gpio != gpio {
      if j < i { assert r[j] == ms[j]; } else { assert r[j] == ms[j + 1]; }
    }
  }

  /** As written, removing `KEY_NONE` matches a free slot and lowers the
      count, so an entry holding one key loses it. */
  lemma RemoveNoneDropsEntry(k: nat)
    requires k != KEY_NONE
    ensures RemoveKey([KeyMapping(5, [k, KEY_NONE, KEY_NONE], 1)], 5, KEY_NONE) == (true, [])
  {
    var ms := [KeyMapping(5, [k, KEY_NONE, KEY_NONE], 1)];
    assert SlotFrom(ms[0].keys, KEY_NONE, 1) == Some(1);
    assert SlotFrom(ms[0].keys, KEY_NONE, 0) == Some(1);
    assert FindKeyFrom(ms, 5, KEY_NONE, 0) == Some((0, 1));
  }

  /** Clearing a GPIO of a good table leaves no entry for it. */
  lemma ClearRemovesGpio(ms: seq<KeyMapping>, gpio: byte)
    requires Good(ms)
    ensures Good(ClearKey(ms, gpio).1)
    ensures FindGpio(ClearKey(ms, gpio).1, gpio).None?
  {
    match FindGpio(ms, gpio)
    case None =>
    case Some(i) =>
      EraseKeepsGood(ms, i);
      var r := Erase(ms, i);
      forall j | 0 <= j < |r| ensures r[j].gpio != gpio {
        if j < i { assert r[j] == ms[j]; } else { assert r[j] == ms[j + 1]; }
      }
  }

  /** The slot loop of the add and remove operations: the first of the
      three slots holding `key`. */
  method FindSlot(keys: seq<nat>, key: nat) returns (r: Option<nat>)
    ensures r == SlotFrom(keys, key, 0)
  {
    var s := 0;
    while s < |keys|
      invariant s <= |keys|
      invariant SlotFrom(keys, key, s) == SlotFrom(keys, key, 0)
    {
      if keys[s] == key {
        return Some(s);
      }
      s := s + 1;
    }
    return None;
  }

  /** The `std::find_if` and `erase` of `removeLogicalKeyMapping`: the
      first entry for `gpio` is erased. */
  method EraseFirst(ms: seq<KeyMapping>, gpio: byte) returns (r: seq<KeyMapping>)
    requires FindGpio(ms, gpio).Some?
    ensures r == Erase(ms, FindGpio(ms, gpio).value)
  {
    ghost var k := FindGpio(ms, gpio).value;
    var j := 0;
    while ms[j].gpio != gpio
      invariant j <= k
      decreases k - j
    {
      j := j + 1;
    }
    r := Erase(ms, j);
  }

  /** `config_->logical_key_mappings`. */
  class LogicalKeys {
    var mappings: seq<KeyMapping>

    ghost predicate Valid()
      reads this
    {
      forall i :: 0 <= i < |mappings| ==> |mappings[i].keys| == 3
    }

    constructor ()
      ensures Valid() && mappings == []
    {
      mappings := [];
    }

    /** `addLogicalKeyMapping`. */
    method Add(gpio: byte, key: nat) returns (ok: bool)
      requires Valid()
      modifies this
      ensures Valid()
      ensures (ok, mappings) == AddKey(old(mappings), gpio, key)
    {
      var i := 0;
      while i < |mappings|
        invariant i <= |mappings| && mappings == old(mappings)
        invariant FindGpioFrom(mappings, gpio, i) == FindGpio(mappings, gpio)
      {
        if mappings[i].gpio == gpio {
          var m := mappings[i];
          var slot := FindSlot(m.keys, KEY_NONE);
          if slot.None? {
            return false;
          }
          mappings := mappings[i := m.(keys := m.keys[slot.value := key], count := Wrap8(m.count + 1))];
          return true;
        }
        i := i + 1;
      }
      mappings := mappings + [NewMapping(gpio, key)];
      return true;
    }

    /** `removeLogicalKeyMapping`. */
    method Remove(gpio: byte, key: nat) returns (ok: bool)
      requires Valid()
      modifies this
      ensures Valid()
      ensures (ok, mappings) == RemoveKey(old(mappings), gpio, key)
    {
      var i := 0;
      while i < |mappings|
        invariant i <= |mappings| && mappings == old(mappings)
        invariant FindKeyFrom(mappings, gpio, key, i) == FindKeyFrom(mappings, gpio, key, 0)
      {
        if mappings[i].gpio == gpio {
          var slot := FindSlot(mappings[i].keys, key);
          if slot.Some? {
            var m := mappings[i];
            assert FindKeyFrom(mappings, gpio, key, i) == Some((i, slot.value));
            var ms := mappings[i := m.(keys := m.keys[slot.value := KEY_NONE], count := Wrap8(m.count - 1))];
            assert ms[i].gpio == gpio;
            assert forall j :: 0 <= j < |ms| ==> |ms[j].keys| == 3;
            if ms[i].count == 0 {
              ms := EraseFirst(ms, gpio);
            }
            mappings := ms;
            return true;
          }
        }
        i := i + 1;
      }
      return false;
    }

    /** `clearLogicalKeyMapping`. */
    method Clear(gpio: byte) returns (ok: bool)
      requires Valid()
      modifies this
      ensures Valid()
      ensures (ok, mappings) == ClearKey(old(mappings), gpio)
    {
      var j := 0;
      while j < |mappings|
        invariant j <= |mappings| && mappings == old(mappings)
        invariant FindGpioFrom(mappings, gpio, j) == FindGpio(mappings, gpio)
      {
        if mappings[j].gpio == gpio {
          mappings := Erase(mappings, j);
          return true;
        }
        j := j + 1;
      }
      return false;
    }

    /** `clearAllLogicalKeyMappings`. */
    method ClearAll()
      modifies this
      ensures Valid() && mappings == []
    {
      mappings := [];
    }
  }
}
