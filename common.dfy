/** Shared value types for the firmware model: bytes, fixed-width words and
    the Option/Result wrappers used for the error paths of the C++ code. */
module Common {

  /** An unsigned 8-bit value (`uint8_t`). */
  type byte = b: int | 0 <= b < 0x100
  /** An unsigned 16-bit value (`uint16_t`). */
  type u16 = x: int | 0 <= x < 0x1_0000
  /** An unsigned 32-bit value (`uint32_t`). */
  type u32 = x: int | 0 <= x < 0x1_0000_0000

  datatype Option<+T> = None | Some(value: T)

  datatype Result<+T, +E> = Ok(value: T) | Err(error: E)

  function Min(a: int, b: int): int { if a <= b then a else b }
  function Max(a: int, b: int): int { if a <= b then b else a }

  /** C's `%` on `int`, which truncates towards zero. */
  function CRem(x: int, n: int): (r: int)
    requires n > 0
    ensures x >= 0 ==> 0 <= r < n && r == x % n
    ensures x < 0 ==> -n < r <= 0
  {
    if x >= 0 then x % n else -((-x) % n)
  }

  /** Clamp `x` into [lo, hi] the way the firmware's `if (x < lo) x = lo; if (x > hi) x = hi;` does. */
  function Clamp(x: int, lo: int, hi: int): (r: int)
    requires lo <= hi
    ensures lo <= r <= hi
    ensures lo <= x <= hi ==> r == x
  {
    if x < lo then lo else if x > hi then hi else x
  }

  /** Bit `i` of a 32-bit word. */
  predicate Bit32(x: bv32, i: nat)
    requires i < 32
  {
    (x >> i) & 1 == 1
  }

  /** The word with only bit `i` set. */
  function Single32(i: nat): (w: bv32)
    requires i < 32
    ensures forall j :: 0 <= j < 32 ==> (Bit32(w, j) <==> j == i)
  {
    (1 as bv32) << i
  }
  /** The C string a byte buffer holds: `std::string(char*)` and `strlen`
      stop at the first zero byte, so a line is cut there. */
  function CString(s: seq<byte>): (t: seq<byte>)
    ensures t <= s
    ensures 0 !in t
    ensures |t| == |s| || s[|t|] == 0
  {
    if s == [] || s[0] == 0 then [] else [s[0]] + CString(s[1..])
  }

  /** A buffer without a zero byte is its own C string. */
  lemma {:induction false} CStringWhole(s: seq<byte>)
    requires 0 !in s
    ensures CString(s) == s
  {
    if s != [] {
      CStringWhole(s[1..]);
    }
  }
  /** A zero byte ends the C string: what follows it is never read. */
  lemma {:induction false} CStringCut(s: seq<byte>, rest: seq<byte>)
    requires 0 !in s && rest != [] && rest[0] == 0
    ensures CString(s + rest) == s
  {
    if s == [] {
      assert s + rest == rest;
    } else {
      assert (s + rest)[1..] == s[1..] + rest;
      CStringCut(s[1..], rest);
      assert [s[0]] + s[1..] == s;
    }
  }
  /** Concatenation is associative. */
  lemma AppendAssoc<T>(a: seq<T>, b: seq<T>, c: seq<T>)
    ensures (a + b) + c == a + (b + c)
  {
  }
}
