/** The keyboard settings page: each physical key input shows its GPIO
    name and the key it sends; a selector steps that key cyclically through
    a fixed list of 58 choices, and every change rewrites the input
    manager's logical key mappings. */
module KeyboardSettingsPage {
  import opened Common
  import opened Text

  /** A selector's joystick input; only up and down change a value. */
  datatype JoystickState = Up | Down | Other

  // ---------------------------------------------------------------------
  // The key choices

  /** `AVAILABLE_KEYS_COUNT`. */
  const KEY_COUNT: nat := 58

  const KEY_NONE: byte := 0x00
  const KEY_A: byte := 0x04
  const KEY_F1: byte := 0x3A
  const KEY_RIGHT_ARROW: byte := 0x4F
  const KEY_LEFT_ARROW: byte := 0x50
  const KEY_DOWN_ARROW: byte := 0x51
  const KEY_UP_ARROW: byte := 0x52

  /** `AVAILABLE_KEYS[i]`: none; A to Z, 1 to 9 and 0, enter, escape,
      backspace, tab and space (HID codes 0x04 to 0x2C, in a row); F1 to
      F12; then the left, down, up and right arrows. */
  function AvailableKey(i: nat): (k: byte)
    requires i < KEY_COUNT
    ensures i == 0 <==> k == KEY_NONE
  {
    if i == 0 then KEY_NONE
    else if i <= 41 then KEY_A - 1 + i
    else if i <= 53 then KEY_F1 + (i - 42)
    else if i == 54 then KEY_LEFT_ARROW
    else if i == 55 then KEY_DOWN_ARROW
    else if i == 56 then KEY_UP_ARROW
    else KEY_RIGHT_ARROW
  }

  /** No key is offered twice. */
  lemma AvailableKeysDistinct(i: nat, j: nat)
    requires i < KEY_COUNT && j < KEY_COUNT && i != j
    ensures AvailableKey(i) != AvailableKey(j)
  {
  }

  /** `KEY_NAMES[i]`, the name shown for `AVAILABLE_KEYS[i]`. */
  function KeyNameAt(i: nat): string
    requires i < KEY_COUNT
  {
    if i == 0 then "无"
    else if i <= 26 then [('A' as int + (i - 1)) as char]
    else if i <= 35 then [('1' as int + (i - 27)) as char]
    else if i == 36 then "0"
    else if i == 37 then "回车"
    else if i == 38 then "ESC"
    else if i == 39 then "退格"
    else if i == 40 then "Tab"
    else if i == 41 then "空格"
    else if i <= 53 then "F" + NatToString(i - 41)
    else if i == 54 then "左"
    else if i == 55 then "下"
    else if i == 56 then "上"
    else "右"
  }

  /** The position of a shown name in the list, read back from the name. */
  function IndexOfKeyName(name: string): Option<nat>
  {
    if name == "无" then Some(0)
    else if |name| == 1 && 'A' <= name[0] <= 'Z' then Some(name[0] as int - 'A' as int + 1)
    else if |name| == 1 && '1' <= name[0] <= '9' then Some(name[0] as int - '1' as int + 27)
    else if name == "0" then Some(36)
    else if name == "回车" then Some(37)
    else if name == "ESC" then Some(38)
    else if name == "退格" then Some(39)
    else if name == "Tab" then Some(40)
    else if name == "空格" then Some(41)
    else if 2 <= |name| && name[0] == 'F' && AllDigits(name[1..]) && 1 <= DigitsValue(name[1..]) <= 12
      then Some(DigitsValue(name[1..]) + 41)
    else if name == "左" then Some(54)
    else if name == "下" then Some(55)
    else if name == "上" then Some(56)
    else if name == "右" then Some(57)
    else None
  }

  /** A function-key name reads back as its number. */
  lemma FunctionKeyName(n: nat)
    requires 1 <= n <= 12
    ensures var s := "F" + NatToString(n); 2 <= |s| && s[0] == 'F' && AllDigits(s[1..]) && DigitsValue(s[1..]) == n
  {
    var s := "F" + NatToString(n);
    assert s[1..] == NatToString(n);
    NatToStringValue(n);
  }

  /** Every shown name reads back as its own position, so no two choices
      share a name. */
  lemma KeyNameRoundTrip(i: nat)
    requires i < KEY_COUNT
    ensures IndexOfKeyName(KeyNameAt(i)) == Some(i)
  {
    if 42 <= i <= 53 {
      FunctionKeyName(i - 41);
      var s := "F" + NatToString(i - 41);
      assert |s| >= 2 && s[0] == 'F';
      assert s != "无" && s != "0" && s != "回车" && s != "ESC" && s != "退格" && s != "Tab" && s != "空格";
    }
  }

  /** The choices' names are distinct. */
  lemma KeyNamesDistinct(i: nat, j: nat)
    requires i < KEY_COUNT && j < KEY_COUNT && i != j
    ensures KeyNameAt(i) != KeyNameAt(j)
  {
    KeyNameRoundTrip(i);
    KeyNameRoundTrip(j);
  }

  /** The first position from `i` on holding `key`, or 0 when none does. */
  function KeyIndexFrom(key: byte, i: nat): (r: nat)
    requires i <= KEY_COUNT
    ensures r < KEY_COUNT
    ensures (exists j :: i <= j < KEY_COUNT && AvailableKey(j) == key) ==> i <= r && AvailableKey(r) == key
    ensures (forall j :: i <= j < KEY_COUNT ==> AvailableKey(j) != key) ==> r == 0
    decreases KEY_COUNT - i
  {
    if i == KEY_COUNT then 0
    else if AvailableKey(i) == key then i
    else KeyIndexFrom(key, i + 1)
  }

  /** `findKeyIndex` as a value: the position holding `key`, or the
      position of "none". */
  function KeyIndex(key: byte): (r: nat)
    ensures r < KEY_COUNT
    ensures forall j :: 0 <= j < KEY_COUNT && AvailableKey(j) == key ==> r == j
    ensures (forall j :: 0 <= j < KEY_COUNT ==> AvailableKey(j) != key) ==> r == 0
  {
    var r := KeyIndexFrom(key, 0);
    assert forall j :: 0 <= j < KEY_COUNT && AvailableKey(j) == key ==> r == j by {
      forall j | 0 <= j < KEY_COUNT && AvailableKey(j) == key
        ensures r == j
      {
        if r != j {
          AvailableKeysDistinct(r, j);
        }
      }
    }
    r
  }

  /** `findKeyIndex`: a scan of the list. */
  method FindKeyIndex(key: byte) returns (i: nat)
    ensures i == KeyIndex(key)
  {
    i := 0;
    while i < KEY_COUNT
      invariant i <= KEY_COUNT
      invariant forall j :: 0 <= j < i ==> AvailableKey(j) != key
    {
      if AvailableKey(i) == key {
        return;
      }
      i := i + 1;
    }
    return 0;
  }

  /** `getKeyName`: the name at the key's position; a key not offered
      shows as "none", so the "unknown" branch is never taken. */
  method GetKeyName(key: byte) returns (name: string)
    ensures name == KeyNameAt(KeyIndex(key))
    ensures IndexOfKeyName(name) == Some(KeyIndex(key))
  {
    var i := FindKeyIndex(key);
    if i < KEY_COUNT {
      KeyNameRoundTrip(i);
      return KeyNameAt(i);
    }
    name := "未知";
  }

  /** The key's position after one selector step, wrapping at both ends. */
  function KeyStep(i: nat, s: JoystickState): (r: nat)
    requires i < KEY_COUNT
    ensures r < KEY_COUNT
    ensures s == Up ==> r == (i + 1) % KEY_COUNT
    ensures s == Down ==> r == (i + KEY_COUNT - 1) % KEY_COUNT
    ensures s == Other ==> r == i
  {
    if s == Up then (if i < KEY_COUNT - 1 then i + 1 else 0)
    else if s == Down then (if i > 0 then i - 1 else KEY_COUNT - 1)
    else i
  }

  /** Up and down undo each other. */
  lemma KeyStepInverse(i: nat)
    requires i < KEY_COUNT
    ensures KeyStep(KeyStep(i, Up), Down) == i
    ensures KeyStep(KeyStep(i, Down), Up) == i
  {
  }

  // ---------------------------------------------------------------------
  // GPIO names

  const MCU_PREFIX: string := "MCU_GPIO"
  const MCP_PREFIX: string := "MCP_GPIO"

  /** `getGPIOName`: the microcontroller's pins 0 to 31 by number, the
      expander's pins numbered from 32. */
  function GpioName(g: byte): string
  {
    if g < 32 then MCU_PREFIX + NatToString(g) else MCP_PREFIX + NatToString(g - 32)
  }

  /** The pin a GPIO name stands for. */
  function GpioOfName(name: string): Option<nat>
  {
    if |name| > 8 && AllDigits(name[8..]) && name[..8] == MCU_PREFIX then Some(DigitsValue(name[8..]))
    else if |name| > 8 && AllDigits(name[8..]) && name[..8] == MCP_PREFIX then Some(DigitsValue(name[8..]) + 32)
    else None
  }

  /** A GPIO name reads back as its pin, so different pins get different
      names. */
  lemma GpioNameRoundTrip(g: byte)
    ensures GpioOfName(GpioName(g)) == Some(g)
  {
    var n: nat := if g < 32 then g else g - 32;
    var s := GpioName(g);
    assert s[8..] == NatToString(n);
    NatToStringValue(n);
    if g < 32 {
      assert s[..8] == MCU_PREFIX;
    } else {
      assert s[..8] == MCP_PREFIX;
      assert s[..8] != MCU_PREFIX by {
        assert s[..8][2] != MCU_PREFIX[2];
      }
    }
  }

  // ---------------------------------------------------------------------
  // The mapping list

  /** A physical key input and its configured default key. */
  datatype PhysicalKeyboard = PhysicalKeyboard(gpio: byte, defaultKey: byte)

  /** `KeyMappingInfo`. */
  datatype KeyMappingInfo = KeyMappingInfo(gpioId: byte, currentKey: byte, gpioName: string, keyName: string)

  /** A logical key mapping handed to the input manager. */
  datatype LogicalMapping = LogicalMapping(gpio: byte, key: byte)

  /** The row `loadKeyMappings` makes for a physical key. */
  function InfoOf(k: PhysicalKeyboard): KeyMappingInfo
  {
    KeyMappingInfo(k.gpio, k.defaultKey, GpioName(k.gpio), KeyNameAt(KeyIndex(k.defaultKey)))
  }

  /** A row whose names agree with its pin and key. */
  predicate Consistent(m: KeyMappingInfo)
  {
    m.gpioName == GpioName(m.gpioId) && m.keyName == KeyNameAt(KeyIndex(m.currentKey))
  }

  /** The logical mappings `saveKeyMappings` adds: each row's pin and key,
      in order, leaving out rows set to "none". */
  function SavedOf(ms: seq<KeyMappingInfo>): seq<LogicalMapping>
  {
    if ms == [] then []
    else
      var last := ms[|ms| - 1];
      SavedOf(ms[..|ms| - 1]) + (if last.currentKey != KEY_NONE then [LogicalMapping(last.gpioId, last.currentKey)] else [])
  }

  /** Exactly the rows with a key are saved, as their pin and key. */
  lemma {:induction false} SavedMeaning(ms: seq<KeyMappingInfo>)
    ensures forall x :: x in SavedOf(ms) ==> x.key != KEY_NONE
    ensures forall x :: x in SavedOf(ms) <==> exists m :: m in ms && m.currentKey != KEY_NONE && x == LogicalMapping(m.gpioId, m.currentKey)
    ensures |SavedOf(ms)| <= |ms|
  {
    if ms != [] {
      var init := ms[..|ms| - 1];
      var last := ms[|ms| - 1];
      SavedMeaning(init);
      assert ms == init + [last];
      forall x
        ensures x in SavedOf(ms) <==> exists m :: m in ms && m.currentKey != KEY_NONE && x == LogicalMapping(m.gpioId, m.currentKey)
      {
        if x in SavedOf(init) {
          var m :| m in init && m.currentKey != KEY_NONE && x == LogicalMapping(m.gpioId, m.currentKey);
          assert m in ms;
        }
        if exists m :: m in ms && m.currentKey != KEY_NONE && x == LogicalMapping(m.gpioId, m.currentKey) {
          var m :| m in ms && m.currentKey != KEY_NONE && x == LogicalMapping(m.gpioId, m.currentKey);
          if m != last {
            assert m in init;
          }
        }
      }
    }
  }

  /** The page's rows, static in the firmware; one object here. `saved` is
      what the input manager last received. */
  class KeyboardSettings {
    var mappings: seq<KeyMappingInfo>
    var loaded: bool
    var saved: seq<LogicalMapping>

    ghost predicate Valid()
      reads this
    {
      forall i :: 0 <= i < |mappings| ==> Consistent(mappings[i])
    }

    constructor ()
      ensures Valid() && mappings == [] && !loaded && saved == []
    {
      mappings := [];
      loaded := false;
      saved := [];
    }

    /** `loadKeyMappings`: one row per physical key, showing its default
        key; no rows without an input manager. */
    method LoadKeyMappings(keyboards: Option<seq<PhysicalKeyboard>>)
      modifies this
      ensures Valid()
      ensures keyboards.None? ==> mappings == []
      ensures keyboards.Some? ==>
        (|mappings| == |keyboards.value| && forall i :: 0 <= i < |mappings| ==> mappings[i] == InfoOf(keyboards.value[i]))
      ensures loaded == old(loaded) && saved == old(saved)
    {
      mappings := [];
      if keyboards.None? {
        return;
      }
      var ks := keyboards.value;
      var i := 0;
      while i < |ks|
        invariant 0 <= i <= |ks| && |mappings| == i
        invariant forall j :: 0 <= j < i ==> mappings[j] == InfoOf(ks[j])
        invariant loaded == old(loaded) && saved == old(saved)
      {
        var gpioName := GpioName(ks[i].gpio);
        var keyName := GetKeyName(ks[i].defaultKey);
        mappings := mappings + [KeyMappingInfo(ks[i].gpio, ks[i].defaultKey, gpioName, keyName)];
        i := i + 1;
      }
    }

    /** The page's constructor: the rows are loaded the first time only. */
    method Open(keyboards: Option<seq<PhysicalKeyboard>>)
      requires Valid()
      modifies this
      ensures Valid() && loaded && saved == old(saved)
      ensures old(loaded) ==> mappings == old(mappings)
      ensures !old(loaded) && keyboards.Some? ==>
        (|mappings| == |keyboards.value| && forall i :: 0 <= i < |mappings| ==> mappings[i] == InfoOf(keyboards.value[i]))
    {
      if !loaded {
        LoadKeyMappings(keyboards);
        loaded := true;
      }
    }

    /** `saveKeyMappings`: the input manager's logical mappings are
        replaced by the rows that have a key; nothing happens without an
        input manager. */
    method SaveKeyMappings(hasInputManager: bool)
      modifies this
      ensures hasInputManager ==> saved == SavedOf(mappings)
      ensures !hasInputManager ==> saved == old(saved)
      ensures mappings == old(mappings) && loaded == old(loaded)
    {
      if !hasInputManager {
        return;
      }
      saved := [];
      var i := 0;
      while i < |mappings|
        invariant 0 <= i <= |mappings|
        invariant saved == SavedOf(mappings[..i])
        invariant mappings == old(mappings) && loaded == old(loaded)
      {
        assert mappings[..i + 1][..i] == mappings[..i];
        if mappings[i].currentKey != KEY_NONE {
          saved := saved + [LogicalMapping(mappings[i].gpioId, mappings[i].currentKey)];
        }
        i := i + 1;
      }
      assert mappings[..i] == mappings;
    }

    /** `onKeyMappingChange`: the row's key moves one place along the list
        (wrapping), its name follows, and the rows are saved; an index past
        the rows changes nothing. */
    method OnKeyMappingChange(index: nat, s: JoystickState, hasInputManager: bool)
      requires Valid()
      modifies this
      ensures Valid() && loaded == old(loaded)
      ensures index >= |old(mappings)| ==> mappings == old(mappings) && saved == old(saved)
      ensures index < |old(mappings)| ==>
        var k := AvailableKey(KeyStep(KeyIndex(old(mappings)[index].currentKey), s));
        mappings == old(mappings)[index := old(mappings)[index].(currentKey := k, keyName := KeyNameAt(KeyIndex(k)))]
        && (hasInputManager ==> saved == SavedOf(mappings))
        && (!hasInputManager ==> saved == old(saved))
    {
      if index >= |mappings| {
        return;
      }
      var m := mappings[index];
      var i := FindKeyIndex(m.currentKey);
      if s == Up {
        if i < KEY_COUNT - 1 {
          i := i + 1;
        } else {
          i := 0;
        }
      } else if s == Down {
        if i > 0 {
          i := i - 1;
        } else {
          i := KEY_COUNT - 1;
        }
      }
      var k := AvailableKey(i);
      var name := GetKeyName(k);
      mappings := mappings[index := m.(currentKey := k, keyName := name)];
      SaveKeyMappings(hasInputManager);
    }
  }
}
