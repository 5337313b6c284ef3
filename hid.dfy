/** The report state of the `HID` device class (`hid.cpp`): the 6-key
    keyboard report with its modifier byte, the mouse button byte and the
    10-contact touch report, together with the character-to-keycode tables
    used to type strings.

    Whether the device is ready (`is_ready`, which asks the USB layer) and
    whether the USB layer accepted a report (`send_report`) come in as
    parameters. */
module Hid {
  import opened Common
  import opened Bits

  const KEY_NONE: byte := 0x00
  const KEY_A: byte := 0x04
  const KEY_1: byte := 0x1E
  const KEY_0: byte := 0x27
  const KEY_ENTER: byte := 0x28
  const KEY_BACKSPACE: byte := 0x2A
  const KEY_TAB: byte := 0x2B
  const KEY_SPACE: byte := 0x2C
  const LEFT_SHIFT: byte := 0x02

  /** The backspace character `'\\b'`. */
  const BS: char := 8 as char

  const KEY_SLOTS := 6
  const CONTACTS := 10

  // ---------------------------------------------------------------------
  // Characters to keys.

  predicate IsLower(c: char) { 'a' <= c <= 'z' }
  predicate IsUpper(c: char) { 'A' <= c <= 'Z' }
  predicate IsDigit(c: char) { '0' <= c <= '9' }

  /** `char_to_keycode`: letters of either case share a key, digits follow
      the keyboard's order with '0' after '9', and a few control characters
      have keys of their own. */
  function CharToKeycode(c: char): (k: byte)
    ensures IsLower(c) ==> k == KEY_A + (c - 'a') as byte
    ensures IsUpper(c) ==> k == KEY_A + (c - 'A') as byte
    ensures k == KEY_NONE <==> !(IsLower(c) || IsUpper(c) || IsDigit(c) || c in {' ', '\n', '\r', '\t', BS})
  {
    if IsLower(c) then KEY_A + (c - 'a') as byte
    else if IsUpper(c) then KEY_A + (c - 'A') as byte
    else if '1' <= c <= '9' then KEY_1 + (c - '1') as byte
    else if c == '0' then KEY_0
    else if c == ' ' then KEY_SPACE
    else if c == '\n' || c == '\r' then KEY_ENTER
    else if c == '\t' then KEY_TAB
    else if c == BS then KEY_BACKSPACE
    else KEY_NONE
  }

  /** The characters typed with the left shift held. */
  predicate Shifted(c: char)
  {
    IsUpper(c) || c in {'!', '@', '#', '$', '%', '^', '&', '*', '(', ')',
                        '_', '+', '{', '}', '|', ':', '"', '<', '>', '?'}
  }

  /** `char_to_modifier`. */
  function CharToModifier(c: char): (m: byte)
    ensures m == LEFT_SHIFT <==> Shifted(c)
    ensures m == 0 <==> !Shifted(c)
  {
    if IsUpper(c) then LEFT_SHIFT
    else if c in {'!', '@', '#', '$', '%', '^', '&', '*', '(', ')',
                  '_', '+', '{', '}', '|', ':', '"', '<', '>', '?'} then LEFT_SHIFT
    else 0x00
  }

  /** Typing a letter or digit presses a key of its own: the key together
      with the shift modifier tells every letter and digit apart. */
  lemma KeyAndShiftIdentifyChar(c1: char, c2: char)
    requires IsLower(c1) || IsUpper(c1) || IsDigit(c1)
    requires IsLower(c2) || IsUpper(c2) || IsDigit(c2)
    requires CharToKeycode(c1) == CharToKeycode(c2) && CharToModifier(c1) == CharToModifier(c2)
    ensures c1 == c2
  {
  }

  /** The digit keys run from `KEY_1` to `KEY_0` in the keyboard's order. */
  lemma DigitKeys(c: char)
    requires IsDigit(c)
    ensures KEY_1 <= CharToKeycode(c) <= KEY_0
    ensures c != '0' ==> CharToKeycode(c) == KEY_1 + (c - '1') as byte
  {
  }

  // ---------------------------------------------------------------------
  // The six-key array.

  /** The first slot holding `v`. */
  function IndexOf(s: seq<byte>, v: byte, i: nat): (r: Option<nat>)
    requires i <= |s|
    ensures r.Some? ==> i <= r.value < |s| && s[r.value] == v && forall j :: i <= j < r.value ==> s[j] != v
    ensures r.None? <==> forall j :: i <= j < |s| ==> s[j] != v
    decreases |s| - i
  {
    if i == |s| then None else if s[i] == v then Some(i) else IndexOf(s, v, i + 1)
  }

  /** `add_key_to_report`: a key already present succeeds without change,
      a new key takes the first empty slot, and a full report refuses it. */
  function AddKey(ks: seq<byte>, key: byte): (r: (bool, seq<byte>))
    ensures |r.1| == |ks|
    ensures key in ks ==> r == (true, ks)
    ensures r.0 <==> key in ks || 0 in ks
    ensures r.0 ==> key in r.1
    ensures multiset(r.1) == if key in ks || 0 !in ks then multiset(ks)
                             else multiset(ks) - multiset{0} + multiset{key}
  {
    if key in ks then (true, ks)
    else match IndexOf(ks, 0, 0)
      case None => (false, ks)
      case Some(i) =>
        assert ks == ks[..i] + [ks[i]] + ks[i + 1..];
        assert ks[i := key] == ks[..i] + [key] + ks[i + 1..];
        (true, ks[i := key])
  }

  /** `remove_key_from_report`: the first slot with the key is emptied. */
  function RemoveKey(ks: seq<byte>, key: byte): (r: (bool, seq<byte>))
    ensures |r.1| == |ks|
    ensures r.0 <==> key in ks
    ensures !r.0 ==> r.1 == ks
    ensures multiset(r.1) == if key !in ks then multiset(ks)
                             else multiset(ks) - multiset{key} + multiset{0}
  {
    match IndexOf(ks, key, 0)
    case None => (false, ks)
    case Some(i) =>
      assert ks == ks[..i] + [ks[i]] + ks[i + 1..];
      assert ks[i := 0] == ks[..i] + [0] + ks[i + 1..];
      (true, ks[i := 0])
  }

  /** Adding a key that is already there changes nothing. */
  lemma AddKeyIdempotent(ks: seq<byte>, key: byte)
    requires AddKey(ks, key).0
    ensures AddKey(AddKey(ks, key).1, key) == AddKey(ks, key)
  {
  }

  /** Pressing a new key and releasing it restores the report, when the
      key is not the empty code. */
  lemma AddThenRemoveKey(ks: seq<byte>, key: byte)
    requires key != KEY_NONE && key !in ks && 0 in ks
    ensures RemoveKey(AddKey(ks, key).1, key) == (true, ks)
  {
    var i := IndexOf(ks, 0, 0).value;
    var a := ks[i := key];
    assert a[i] == key;
    assert forall j :: 0 <= j < i ==> a[j] == ks[j] && a[j] != key;
    assert IndexOf(a, key, 0) == Some(i);
    assert a[i := 0] == ks;
  }

  // ---------------------------------------------------------------------
  // Touch contacts.

  datatype TouchPoint = TouchPoint(x: u16, y: u16, pressure: byte, id: byte, inContact: bool, tip: bool)

  const NO_POINT := TouchPoint(0, 0, 0, 0, false, false)

  /** `find_touch_point`: the first slot in contact with the id. */
  function FindContact(cs: seq<TouchPoint>, id: byte, i: nat): (r: Option<nat>)
    requires i <= |cs|
    ensures r.Some? ==> i <= r.value < |cs| && cs[r.value].id == id && cs[r.value].inContact
    ensures r.Some? ==> forall j :: i <= j < r.value ==> !(cs[j].id == id && cs[j].inContact)
    ensures r.None? <==> forall j :: i <= j < |cs| ==> !(cs[j].id == id && cs[j].inContact)
    decreases |cs| - i
  {
    if i == |cs| then None
    else if cs[i].id == id && cs[i].inContact then Some(i)
    else FindContact(cs, id, i + 1)
  }

  /** The first slot not in contact. */
  function FreeSlot(cs: seq<TouchPoint>, i: nat): (r: Option<nat>)
    requires i <= |cs|
    ensures r.Some? ==> i <= r.value < |cs| && !cs[r.value].inContact
    ensures r.Some? ==> forall j :: i <= j < r.value ==> cs[j].inContact
    ensures r.None? <==> forall j :: i <= j < |cs| ==> cs[j].inContact
    decreases |cs| - i
  {
    if i == |cs| then None
    else if !cs[i].inContact then Some(i)
    else FreeSlot(cs, i + 1)
  }

  /** The number of slots in contact. */
  function InContact(cs: seq<TouchPoint>): (n: nat)
    ensures n <= |cs|
  {
    if cs == [] then 0 else InContact(cs[..|cs| - 1]) + (if cs[|cs| - 1].inContact then 1 else 0)
  }

  /** Replacing one slot changes the number in contact by the difference. */
  lemma {:induction false} InContactUpdate(cs: seq<TouchPoint>, i: nat, p: TouchPoint)
    requires i < |cs|
    ensures InContact(cs[i := p]) + (if cs[i].inContact then 1 else 0) == InContact(cs) + (if p.inContact then 1 else 0)
    decreases |cs|
  {
    var n := |cs| - 1;
    if i < n {
      InContactUpdate(cs[..n], i, p);
      assert cs[i := p][..n] == cs[..n][i := p];
    } else {
      assert cs[i := p][..n] == cs[..n];
    }
  }

  lemma {:induction false} NoneInContact(n: nat)
    ensures InContact(seq(n, _ => NO_POINT)) == 0
  {
    if n > 0 {
      NoneInContact(n - 1);
      assert seq(n, _ => NO_POINT)[..n - 1] == seq(n - 1, _ => NO_POINT);
    }
  }

  /** The slot `set_touch_point` writes. */
  function Placed(id: byte, x: u16, y: u16, pressure: byte): TouchPoint
  {
    TouchPoint(x, y, pressure, id, true, true)
  }

  /** `set_touch_point`: the contact with the id is updated in place, else
      the first free slot takes it and the count goes up; with every slot
      in contact the call fails. Returns success, the slots and the count. */
  function SetTouch(cs: seq<TouchPoint>, count: nat, id: byte, x: u16, y: u16, pressure: byte): (r: (bool, seq<TouchPoint>, nat))
    ensures |r.1| == |cs|
    ensures !r.0 <==> FindContact(cs, id, 0).None? && FreeSlot(cs, 0).None?
    ensures !r.0 ==> r.1 == cs && r.2 == count
    ensures r.0 ==> Placed(id, x, y, pressure) in r.1
  {
    match FindContact(cs, id, 0)
    case Some(i) =>
      assert cs[i := Placed(id, x, y, pressure)][i] == Placed(id, x, y, pressure);
      (true, cs[i := Placed(id, x, y, pressure)], count)
    case None =>
      match FreeSlot(cs, 0)
      case None => (false, cs, count)
      case Some(i) =>
        assert cs[i := Placed(id, x, y, pressure)][i] == Placed(id, x, y, pressure);
        (true, cs[i := Placed(id, x, y, pressure)], count + 1)
  }

  /** `release_touch_point`: the contact with the id leaves contact and the
      count goes down; an unknown id changes nothing. */
  function ReleaseTouch(cs: seq<TouchPoint>, count: nat, id: byte): (r: (seq<TouchPoint>, int))
    ensures |r.0| == |cs|
    ensures FindContact(cs, id, 0).None? ==> r == (cs, count)
  {
    match FindContact(cs, id, 0)
    case None => (cs, count)
    case Some(i) => (cs[i := cs[i].(inContact := false, tip := false)], count - 1)
  }

  /** The touch report's invariant: the count is the number of slots in
      contact, and no id is in contact twice. */
  ghost predicate TouchGood(cs: seq<TouchPoint>, count: int)
  {
    count == InContact(cs) &&
    forall i, j :: 0 <= i < j < |cs| && cs[i].inContact && cs[j].inContact ==> cs[i].id != cs[j].id
  }

  lemma SetTouchKeepsGood(cs: seq<TouchPoint>, count: nat, id: byte, x: u16, y: u16, pressure: byte)
    requires TouchGood(cs, count)
    ensures TouchGood(SetTouch(cs, count, id, x, y, pressure).1, SetTouch(cs, count, id, x, y, pressure).2)
  {
    var p := Placed(id, x, y, pressure);
    match FindContact(cs, id, 0)
    case Some(i) =>
      InContactUpdate(cs, i, p);
    case None =>
      match FreeSlot(cs, 0)
      case None =>
      case Some(i) =>
        InContactUpdate(cs, i, p);
  }

  /** Releasing keeps the invariant, so the count never goes below zero. */
  lemma ReleaseTouchKeepsGood(cs: seq<TouchPoint>, count: nat, id: byte)
    requires TouchGood(cs, count)
    ensures TouchGood(ReleaseTouch(cs, count, id).0, ReleaseTouch(cs, count, id).1)
    ensures ReleaseTouch(cs, count, id).1 >= 0
  {
    match FindContact(cs, id, 0)
    case None =>
    case Some(i) =>
      InContactUpdate(cs, i, cs[i].(inContact := false, tip := false));
  }

  /** A contact set and then released leaves no contact with that id. */
  lemma SetThenReleaseTouch(cs: seq<TouchPoint>, count: nat, id: byte, x: u16, y: u16, pressure: byte)
    requires TouchGood(cs, count) && SetTouch(cs, count, id, x, y, pressure).0
    ensures var s := SetTouch(cs, count, id, x, y, pressure);
      var r := ReleaseTouch(s.1, s.2, id);
      FindContact(r.0, id, 0).None? && r.1 == InContact(cs) - (if FindContact(cs, id, 0).Some? then 1 else 0)
  {
    var s := SetTouch(cs, count, id, x, y, pressure);
    SetTouchKeepsGood(cs, count, id, x, y, pressure);
    var i :| 0 <= i < |s.1| && s.1[i] == Placed(id, x, y, pressure);
    assert FindContact(s.1, id, 0) == Some(i);
    var r := ReleaseTouch(s.1, s.2, id);
    ReleaseTouchKeepsGood(s.1, s.2, id);
    assert forall j :: 0 <= j < |r.0| && j != i ==> r.0[j] == s.1[j];
    match FindContact(cs, id, 0)
    case Some(k) =>
      InContactUpdate(cs, k, Placed(id, x, y, pressure));
    case None =>
      var k := FreeSlot(cs, 0).value;
      InContactUpdate(cs, k, Placed(id, x, y, pressure));
  }

  // ---------------------------------------------------------------------
  // Mouse buttons.

  /** `press_mouse_button` / `release_mouse_button` on the button byte. */
  function PressButton(buttons: byte, button: byte): (b: nat)
    ensures forall i: nat :: Bit(b, i) <==> Bit(buttons as nat, i) || Bit(button as nat, i)
    ensures b < 0x100
  {
    ButtonFacts(buttons as nat, button as nat);
    Or(buttons as nat, button as nat)
  }

  function ReleaseButton(buttons: byte, button: byte): (b: nat)
    ensures forall i: nat :: Bit(b, i) <==> Bit(buttons as nat, i) && !Bit(button as nat, i)
    ensures b < 0x100
  {
    ButtonFacts(buttons as nat, button as nat);
    AndNot(buttons as nat, button as nat)
  }

  lemma ButtonFacts(a: nat, b: nat)
    requires a < 0x100 && b < 0x100
    ensures forall i: nat :: Bit(Or(a, b), i) <==> Bit(a, i) || Bit(b, i)
    ensures forall i: nat :: Bit(AndNot(a, b), i) <==> Bit(a, i) && !Bit(b, i)
    ensures Or(a, b) < 0x100 && AndNot(a, b) < 0x100
  {
    forall i: nat
      ensures Bit(Or(a, b), i) <==> Bit(a, i) || Bit(b, i)
      ensures Bit(AndNot(a, b), i) <==> Bit(a, i) && !Bit(b, i)
    {
      OrBit(a, b, i);
      AndNotBit(a, b, i);
    }
    Pow2Values();
    OrBound(a, b, 8);
    AndNotBound(a, b);
  }

  /** Releasing a button after pressing it gives back the other buttons. */
  lemma PressThenRelease(buttons: byte, button: byte, other: nat)
    requires !Bit(button as nat, other)
    ensures Bit(ReleaseButton(PressButton(buttons, button) as byte, button) as nat, other) == Bit(buttons as nat, other)
  {
  }

  // ---------------------------------------------------------------------
  // The report state.

  class HidReports {
    var modifier: byte
    const keys: array<byte>
    var buttons: byte
    const contacts: array<TouchPoint>
    var contactCount: nat

    ghost predicate Valid()
      reads this, contacts
    {
      keys.Length == KEY_SLOTS && contacts.Length == CONTACTS &&
      TouchGood(contacts[..], contactCount)
    }

    /** The reports as `init` leaves them: everything cleared. */
    constructor ()
      ensures Valid() && fresh(keys) && fresh(contacts)
      ensures modifier == 0 && keys[..] == seq(KEY_SLOTS, _ => 0) && buttons == 0
      ensures contacts[..] == seq(CONTACTS, _ => NO_POINT) && contactCount == 0
    {
      modifier := 0;
      keys := new byte[KEY_SLOTS](_ => 0);
      buttons := 0;
      contacts := new TouchPoint[CONTACTS](_ => NO_POINT);
      contactCount := 0;
      new;
      assert contacts[..] == seq(CONTACTS, _ => NO_POINT);
      NoneInContact(CONTACTS);
    }

    /** `add_key_to_report`. */
    method AddKeyToReport(key: byte) returns (ok: bool)
      requires Valid()
      modifies keys
      ensures Valid() && (ok, keys[..]) == AddKey(old(keys[..]), key)
    {
      var i := 0;
      while i < KEY_SLOTS
        invariant i <= KEY_SLOTS && forall j :: 0 <= j < i ==> keys[j] != key
      {
        if keys[i] == key {
          return true;
        }
        i := i + 1;
      }
      i := 0;
      while i < KEY_SLOTS
        invariant i <= KEY_SLOTS && IndexOf(keys[..], 0, i) == IndexOf(keys[..], 0, 0)
      {
        if keys[i] == 0 {
          keys[i] := key;
          return true;
        }
        i := i + 1;
      }
      return false;
    }

    /** `remove_key_from_report`. */
    method RemoveKeyFromReport(key: byte) returns (ok: bool)
      requires Valid()
      modifies keys
      ensures Valid() && (ok, keys[..]) == RemoveKey(old(keys[..]), key)
    {
      var i := 0;
      while i < KEY_SLOTS
        invariant i <= KEY_SLOTS && IndexOf(keys[..], key, i) == IndexOf(keys[..], key, 0)
      {
        if keys[i] == key {
          keys[i] := 0;
          return true;
        }
        i := i + 1;
      }
      return false;
    }

    /** `press_key`: the modifier bits are ORed in first, then the key is
        added and the report sent. */
    method PressKey(key: byte, mods: byte, ready: bool, sent: bool) returns (ok: bool)
      requires Valid()
      modifies this, keys
      ensures Valid() && buttons == old(buttons) && contactCount == old(contactCount)
      ensures !ready ==> !ok && modifier == old(modifier) && keys[..] == old(keys[..])
      ensures ready ==> modifier as nat == Or(old(modifier) as nat, mods as nat) && keys[..] == AddKey(old(keys[..]), key).1
      ensures ok <==> ready && AddKey(old(keys[..]), key).0 && sent
    {
      if !ready {
        return false;
      }
      ButtonFacts(modifier as nat, mods as nat);
      modifier := Or(modifier as nat, mods as nat) as byte;
      var added := AddKeyToReport(key);
      if !added {
        return false;
      }
      return sent;
    }

    /** `release_key`: the result is the send's, whether or not the key was
        in the report. */
    method ReleaseKey(key: byte, ready: bool, sent: bool) returns (ok: bool)
      requires Valid()
      modifies keys
      ensures Valid()
      ensures keys[..] == if ready then RemoveKey(old(keys[..]), key).1 else old(keys[..])
      ensures ok <==> ready && sent
    {
      if !ready {
        return false;
      }
      var _ := RemoveKeyFromReport(key);
      return sent;
    }

    /** `clear_keyboard_report`. */
    method ClearKeyboardReport()
      requires Valid()
      modifies this, keys
      ensures Valid() && modifier == 0 && keys[..] == seq(KEY_SLOTS, _ => 0)
      ensures buttons == old(buttons) && contactCount == old(contactCount)
    {
      modifier := 0;
      var i := 0;
      while i < KEY_SLOTS
        invariant i <= KEY_SLOTS && forall j :: 0 <= j < i ==> keys[j] == 0
        invariant modifier == 0 && buttons == old(buttons) && contactCount == old(contactCount)
      {
        keys[i] := 0;
        i := i + 1;
      }
    }

    /** `press_mouse_button`. */
    method PressMouseButton(button: byte, ready: bool, sent: bool) returns (ok: bool)
      modifies this
      ensures !ready ==> buttons == old(buttons) && !ok
      ensures ready ==> buttons as nat == PressButton(old(buttons), button) && ok == sent
      ensures modifier == old(modifier) && contactCount == old(contactCount)
    {
      if !ready {
        return false;
      }
      buttons := PressButton(buttons, button) as byte;
      return sent;
    }

    /** `release_mouse_button`. */
    method ReleaseMouseButton(button: byte, ready: bool, sent: bool) returns (ok: bool)
      modifies this
      ensures !ready ==> buttons == old(buttons) && !ok
      ensures ready ==> buttons as nat == ReleaseButton(old(buttons), button) && ok == sent
      ensures modifier == old(modifier) && contactCount == old(contactCount)
    {
      if !ready {
        return false;
      }
      buttons := ReleaseButton(buttons, button) as byte;
      return sent;
    }

    /** `find_touch_point`. */
    method FindTouchPoint(id: byte) returns (r: Option<nat>)
      requires Valid()
      ensures r == FindContact(contacts[..], id, 0)
    {
      var i := 0;
      while i < CONTACTS
        invariant i <= CONTACTS && FindContact(contacts[..], id, i) == FindContact(contacts[..], id, 0)
      {
        if contacts[i].id == id && contacts[i].inContact {
          return Some(i);
        }
        i := i + 1;
      }
      return None;
    }

    /** `set_touch_point`. */
    method SetTouchPoint(id: byte, x: u16, y: u16, pressure: byte, ready: bool, sent: bool) returns (ok: bool)
      requires Valid()
      modifies this, contacts
      ensures Valid() && modifier == old(modifier) && buttons == old(buttons)
      ensures !ready ==> !ok && contacts[..] == old(contacts[..]) && contactCount == old(contactCount)
      ensures ready ==> (contacts[..], contactCount) == (SetTouch(old(contacts[..]), old(contactCount), id, x, y, pressure).1, SetTouch(old(contacts[..]), old(contactCount), id, x, y, pressure).2)
      ensures ok <==> ready && SetTouch(old(contacts[..]), old(contactCount), id, x, y, pressure).0 && sent
    {
      if !ready {
        return false;
      }
      SetTouchKeepsGood(contacts[..], contactCount, id, x, y, pressure);
      var found := FindTouchPoint(id);
      var slot := found;
      if found.None? {
        var i := 0;
        while i < CONTACTS
          invariant i <= CONTACTS && FreeSlot(contacts[..], i) == FreeSlot(contacts[..], 0)
          invariant contacts[..] == old(contacts[..]) && contactCount == old(contactCount)
        {
          if !contacts[i].inContact {
            slot := Some(i);
            contactCount := contactCount + 1;
            break;
          }
          i := i + 1;
        }
        if slot.None? {
          return false;
        }
      }
      contacts[slot.value] := Placed(id, x, y, pressure);
      return sent;
    }

    /** `release_touch_point`. */
    method ReleaseTouchPoint(id: byte, ready: bool, sent: bool) returns (ok: bool)
      requires Valid()
      modifies this, contacts
      ensures Valid() && modifier == old(modifier) && buttons == old(buttons)
      ensures !ready ==> contacts[..] == old(contacts[..]) && contactCount == old(contactCount)
      ensures ready ==> (contacts[..], contactCount as int) == ReleaseTouch(old(contacts[..]), old(contactCount), id)
      ensures ok <==> ready && sent
    {
      if !ready {
        return false;
      }
      ReleaseTouchKeepsGood(contacts[..], contactCount, id);
      var found := FindTouchPoint(id);
      if found.Some? {
        var i := found.value;
        contacts[i] := contacts[i].(inContact := false, tip := false);
        contactCount := contactCount - 1;
      }
      return sent;
    }

    /** `clear_touch_report`. */
    method ClearTouchReport()
      requires Valid()
      modifies this, contacts
      ensures Valid() && contacts[..] == seq(CONTACTS, _ => NO_POINT) && contactCount == 0
      ensures modifier == old(modifier) && buttons == old(buttons)
    {
      contactCount := 0;
      var i := 0;
      while i < CONTACTS
        invariant i <= CONTACTS && forall j :: 0 <= j < i ==> contacts[j] == NO_POINT
        invariant contactCount == 0 && modifier == old(modifier) && buttons == old(buttons)
      {
        contacts[i] := NO_POINT;
        i := i + 1;
      }
      assert contacts[..] == seq(CONTACTS, _ => NO_POINT);
      NoneInContact(CONTACTS);
    }
  }
}
