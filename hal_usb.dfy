/** The keyboard side of `HAL_USB` (`hal_usb.cpp`): turning the 104-bit
    NKRO bitmap into the six-key boot report, and the static six-key state
    `hid_keyboard_single_key` keeps between calls.

    Whether the USB device is connected and ready, and what the final
    `keyboardReport` call returns, come in as parameters. */
module HalUsb {
  import opened Common
  import opened Bits
  import Hid

  const BITMAP_BYTES := 13
  const REPORT_KEYS := 6

  /** `keycode_map`, bit position of the NKRO bitmap to USB keycode, in
      closed form: positions 1-41 are the letters, digits and editing keys
      from 0x04, 42-53 the function keys from 0x3A, 54-61 the modifier keys
      from 0xE0; position 0, the three joystick positions 62-64 and every
      position past the table give no key. */
  function Keycode(pos: nat): (k: byte)
    ensures k != 0 <==> 1 <= pos <= 61
  {
    if 1 <= pos <= 41 then (pos + 0x03) as byte
    else if 42 <= pos <= 53 then (pos + 0x10) as byte
    else if 54 <= pos <= 61 then (pos + 0xAA) as byte
    else 0
  }

  const KEY_JOYSTICK_A: byte := 0xE8
  const KEY_JOYSTICK_B: byte := 0xE9
  const KEY_JOYSTICK_CONFIRM: byte := 0xEA

  /** The keycodes of the set bits below `k` of one bitmap byte whose bit 0
      sits at position `base`, in bit order. */
  function ByteCodes(b: byte, base: nat, k: nat): (s: seq<byte>)
    requires k <= 8
    ensures |s| <= k
    ensures forall i :: 0 <= i < |s| ==> s[i] != 0
  {
    if k == 0 then []
    else ByteCodes(b, base, k - 1) + (if Bit(b as nat, k - 1) && Keycode(base + k - 1) != 0 then [Keycode(base + k - 1)] else [])
  }

  /** The keycodes of the set bits of the first `n` bytes, in bit order. */
  function Pressed(bm: seq<byte>, n: nat): (s: seq<byte>)
    requires n <= |bm|
    ensures |s| <= 8 * n
    ensures forall i :: 0 <= i < |s| ==> s[i] != 0
  {
    if n == 0 then [] else Pressed(bm, n - 1) + ByteCodes(bm[n - 1], 8 * (n - 1), 8)
  }

  /** The keycode bit `j` of a byte at `base` stands for when it is set, or 0. */
  function CodeOf(b: byte, base: nat, j: nat): (c: byte)
    ensures c != 0 <==> Bit(b as nat, j) && 1 <= base + j <= 61
  {
    if Bit(b as nat, j) then Keycode(base + j) else 0
  }

  /** A keycode is in the list exactly when one of the first `k` bits that
      stands for it is set. */
  lemma {:induction false} ByteCodesMeaning(b: byte, base: nat, k: nat, c: byte)
    requires k <= 8
    ensures c in ByteCodes(b, base, k) <==> c != 0 && exists j :: 0 <= j < k && CodeOf(b, base, j) == c
  {
    if k > 0 {
      ByteCodesMeaning(b, base, k - 1, c);
      if c != 0 && CodeOf(b, base, k - 1) == c {
        assert c in ByteCodes(b, base, k);
      }
    }
  }

  lemma {:induction false} ByteCodesPrefix(b: byte, base: nat, k: nat, l: nat)
    requires k <= l <= 8
    ensures ByteCodes(b, base, k) <= ByteCodes(b, base, l)
    decreases l - k
  {
    if k < l {
      ByteCodesPrefix(b, base, k, l - 1);
    }
  }

  lemma {:induction false} PressedPrefix(bm: seq<byte>, n: nat, m: nat)
    requires n <= m <= |bm|
    ensures Pressed(bm, n) <= Pressed(bm, m)
    decreases m - n
  {
    if n < m {
      PressedPrefix(bm, n, m - 1);
    }
  }

  /** The six-key array the NKRO conversion builds: the first six pressed
      keycodes in bit order, then zeros. */
  function SixKeys(s: seq<byte>): (keys: seq<byte>)
    ensures |keys| == REPORT_KEYS
  {
    var n := Min(|s|, REPORT_KEYS);
    s[..n] + seq(REPORT_KEYS - n, _ => 0)
  }

  /** Every key of the boot report was pressed, at most six are taken, and
      an empty slot means no more keys were pressed. */
  lemma SixKeysMeaning(bm: seq<byte>)
    requires |bm| == BITMAP_BYTES
    ensures var keys := SixKeys(Pressed(bm, BITMAP_BYTES));
      (forall i :: 0 <= i < REPORT_KEYS && keys[i] != 0 ==> keys[i] in Pressed(bm, BITMAP_BYTES)) &&
      (|Pressed(bm, BITMAP_BYTES)| >= REPORT_KEYS ==> forall i :: 0 <= i < REPORT_KEYS ==> keys[i] != 0) &&
      (forall i :: 0 <= i < REPORT_KEYS && keys[i] == 0 ==> i >= |Pressed(bm, BITMAP_BYTES)|)
  {
  }

  lemma SixKeysAppend(s: seq<byte>, c: byte)
    requires |s| < REPORT_KEYS
    ensures SixKeys(s + [c]) == SixKeys(s)[|s| := c]
  {
  }

  /** Once six keys are found, later bits do not change the report. */
  lemma SixKeysSettled(s: seq<byte>, t: seq<byte>)
    requires s <= t && |s| >= REPORT_KEYS
    ensures SixKeys(s) == SixKeys(t)
  {
    assert s[..REPORT_KEYS] == t[..REPORT_KEYS];
  }

  /** The scan stopped inside byte `byteIdx` after `bitIdx` bits has seen a
      prefix of all the keys. */
  lemma ScanPrefix(bm: seq<byte>, byteIdx: nat, bitIdx: nat)
    requires byteIdx < |bm| && bitIdx <= 8
    ensures Pressed(bm, byteIdx) + ByteCodes(bm[byteIdx], 8 * byteIdx, bitIdx) <= Pressed(bm, |bm|)
  {
    ByteCodesPrefix(bm[byteIdx], 8 * byteIdx, bitIdx, 8);
    PressedPrefix(bm, byteIdx + 1, |bm|);
  }

  /** `hid_keyboard_nkro_report`'s conversion loop, with its early stop at
      six keys. */
  method NkroToKeys(bm: seq<byte>) returns (keys: seq<byte>)
    requires |bm| == BITMAP_BYTES
    ensures keys == SixKeys(Pressed(bm, BITMAP_BYTES))
  {
    var arr := new byte[REPORT_KEYS](_ => 0);
    var keyIndex := 0;
    var byteIdx := 0;
    while byteIdx < BITMAP_BYTES && keyIndex < REPORT_KEYS
      invariant byteIdx <= BITMAP_BYTES && keyIndex <= REPORT_KEYS
      invariant keyIndex == Min(|Pressed(bm, byteIdx)|, REPORT_KEYS)
      invariant arr[..] == SixKeys(Pressed(bm, byteIdx))
      decreases BITMAP_BYTES - byteIdx
    {
      var byteVal := bm[byteIdx];
      ghost var done := Pressed(bm, byteIdx);
      var bitIdx := 0;
      while bitIdx < 8 && keyIndex < REPORT_KEYS
        invariant bitIdx <= 8 && keyIndex <= REPORT_KEYS
        invariant keyIndex == Min(|done + ByteCodes(byteVal, 8 * byteIdx, bitIdx)|, REPORT_KEYS)
        invariant arr[..] == SixKeys(done + ByteCodes(byteVal, 8 * byteIdx, bitIdx))
        decreases 8 - bitIdx
      {
        ghost var seen := done + ByteCodes(byteVal, 8 * byteIdx, bitIdx);
        var pos := 8 * byteIdx + bitIdx;
        if Bit(byteVal as nat, bitIdx) && Keycode(pos) != 0 {
          SixKeysAppend(seen, Keycode(pos));
          assert done + ByteCodes(byteVal, 8 * byteIdx, bitIdx + 1) == seen + [Keycode(pos)];
          arr[keyIndex] := Keycode(pos);
          keyIndex := keyIndex + 1;
        } else {
          assert done + ByteCodes(byteVal, 8 * byteIdx, bitIdx + 1) == seen;
        }
        bitIdx := bitIdx + 1;
      }
      if keyIndex == REPORT_KEYS {
        ScanPrefix(bm, byteIdx, bitIdx);
        SixKeysSettled(done + ByteCodes(byteVal, 8 * byteIdx, bitIdx), Pressed(bm, BITMAP_BYTES));
        return arr[..];
      }
      assert Pressed(bm, byteIdx + 1) == done + ByteCodes(byteVal, 8 * byteIdx, 8);
      byteIdx := byteIdx + 1;
    }
    if keyIndex == REPORT_KEYS {
      PressedPrefix(bm, byteIdx, BITMAP_BYTES);
      SixKeysSettled(Pressed(bm, byteIdx), Pressed(bm, BITMAP_BYTES));
    }
    keys := arr[..];
  }

  // ---------------------------------------------------------------------
  // The single-key state.

  /** A release: the key's first slot is dropped, the later keys move one
      to the left and the last slot becomes empty. */
  function Released(ks: seq<byte>, key: byte): (r: seq<byte>)
    ensures |r| == |ks|
    ensures key !in ks ==> r == ks
    ensures |ks| > 0 && key in ks ==> multiset(r) == multiset(ks) - multiset{key} + multiset{0}
  {
    match Hid.IndexOf(ks, key, 0)
    case None => ks
    case Some(i) =>
      assert ks == ks[..i] + [key] + ks[i + 1..];
      ks[..i] + ks[i + 1..] + [0]
  }

  /** The keys are packed: no key follows an empty slot. */
  ghost predicate Packed(ks: seq<byte>)
  {
    forall i, j :: 0 <= i < j < |ks| && ks[i] == 0 ==> ks[j] == 0
  }

  /** Pressing and releasing keep the keys packed, given the state starts
      packed and the key is not the empty code. */
  lemma PressKeepsPacked(ks: seq<byte>, key: byte)
    requires Packed(ks) && key != 0
    ensures Packed(Hid.AddKey(ks, key).1)
  {
  }

  lemma ReleaseKeepsPacked(ks: seq<byte>, key: byte)
    requires Packed(ks)
    ensures Packed(Released(ks, key))
  {
    match Hid.IndexOf(ks, key, 0)
    case None =>
    case Some(i) =>
      var r := ks[..i] + ks[i + 1..] + [0];
      assert forall j :: 0 <= j < i ==> r[j] == ks[j];
      assert forall j :: i <= j < |ks| - 1 ==> r[j] == ks[j + 1];
      assert r[|ks| - 1] == 0;
      forall x, y | 0 <= x < y < |r| && r[x] == 0
        ensures r[y] == 0
      {
        if y < |r| - 1 {
          var x' := if x < i then x else x + 1;
          var y' := if y < i then y else y + 1;
          assert ks[x'] == 0 && x' < y';
        }
      }
  }

  /** In a packed state, pressing a new key and releasing it restores the
      keys. */
  lemma PressThenReleaseSingle(ks: seq<byte>, key: byte)
    requires Packed(ks) && key != 0 && key !in ks && 0 in ks && |ks| == REPORT_KEYS
    ensures Released(Hid.AddKey(ks, key).1, key) == ks
  {
    var i := Hid.IndexOf(ks, 0, 0).value;
    var a := ks[i := key];
    assert a[i] == key;
    assert forall j :: 0 <= j < i ==> a[j] == ks[j] && a[j] != key;
    assert Hid.IndexOf(a, key, 0) == Some(i);
    var r := a[..i] + a[i + 1..] + [0];
    assert forall j :: 0 <= j < |ks| ==> r[j] == ks[j];
  }

  /** The static `current_keys` and `current_modifier`. */
  class SingleKeyState {
    const keys: array<byte>
    var modifier: byte

    ghost predicate Valid()
      reads this
    {
      keys.Length == REPORT_KEYS
    }

    constructor ()
      ensures Valid() && fresh(keys) && keys[..] == seq(REPORT_KEYS, _ => 0) && modifier == 0
    {
      keys := new byte[REPORT_KEYS](_ => 0);
      modifier := 0;
    }

    /** `hid_keyboard_single_key`: the modifier is replaced first; joystick
        pseudo-keys change no key and succeed; a press adds the key if it is
        absent and a slot is empty; a release removes it and shifts the rest
        left. */
    method SingleKey(key: byte, pressed: bool, mods: byte, ready: bool, sent: bool) returns (ok: bool)
      requires Valid()
      modifies this, keys
      ensures Valid()
      ensures !ready ==> !ok && modifier == old(modifier) && keys[..] == old(keys[..])
      ensures ready ==> modifier == mods
      ensures ready && key in {KEY_JOYSTICK_A, KEY_JOYSTICK_B, KEY_JOYSTICK_CONFIRM} ==> ok && keys[..] == old(keys[..])
      ensures ready && key !in {KEY_JOYSTICK_A, KEY_JOYSTICK_B, KEY_JOYSTICK_CONFIRM} ==>
        ok == sent && keys[..] == if pressed then Hid.AddKey(old(keys[..]), key).1 else Released(old(keys[..]), key)
    {
      if !ready {
        return false;
      }
      modifier := mods;
      if key == KEY_JOYSTICK_A || key == KEY_JOYSTICK_B || key == KEY_JOYSTICK_CONFIRM {
        return true;
      }
      if pressed {
        Press(key);
      } else {
        Release(key);
      }
      return sent;
    }

    /** The press branch: a search for the key, then for an empty slot. */
    method Press(key: byte)
      requires Valid()
      modifies keys
      ensures keys[..] == Hid.AddKey(old(keys[..]), key).1
    {
      var found := false;
      var i := 0;
      while i < REPORT_KEYS
        invariant i <= REPORT_KEYS && (found <==> key in keys[..i])
      {
        if keys[i] == key {
          found := true;
          break;
        }
        i := i + 1;
      }
      assert !found ==> keys[..i] == keys[..];
      if !found {
        i := 0;
        while i < REPORT_KEYS
          invariant i <= REPORT_KEYS && keys[..] == old(keys[..])
          invariant Hid.IndexOf(keys[..], 0, i) == Hid.IndexOf(keys[..], 0, 0)
        {
          if keys[i] == 0 {
            keys[i] := key;
            break;
          }
          i := i + 1;
        }
      }
    }

    /** Slot `i` is cleared and the later slots shifted down one, the last
        becoming empty. */
    method ShiftOut(i: nat)
      requires Valid() && i < REPORT_KEYS
      modifies keys
      ensures keys[..] == old(keys[..])[..i] + old(keys[..])[i + 1..] + [0]
    {
      keys[i] := 0;
      var j := i;
      while j < REPORT_KEYS - 1
        invariant i <= j <= REPORT_KEYS - 1
        invariant forall k :: 0 <= k < i ==> keys[k] == old(keys[k])
        invariant forall k :: i <= k < j ==> keys[k] == old(keys[k + 1])
        invariant forall k :: j < k < REPORT_KEYS ==> keys[k] == old(keys[k])
      {
        keys[j] := keys[j + 1];
        j := j + 1;
      }
      keys[REPORT_KEYS - 1] := 0;
    }

    /** The release branch: the first slot with the key is cleared and the
        later slots shifted down. */
    method Release(key: byte)
      requires Valid()
      modifies keys
      ensures keys[..] == Released(old(keys[..]), key)
    {
      var i := 0;
      while i < REPORT_KEYS
        invariant i <= REPORT_KEYS && keys[..] == old(keys[..])
        invariant Hid.IndexOf(keys[..], key, i) == Hid.IndexOf(keys[..], key, 0)
      {
        if keys[i] == key {
          ShiftOut(i);
          return;
        }
        i := i + 1;
      }
    }
  }
}
