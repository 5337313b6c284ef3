/** Decimal text as the firmware's `snprintf("%u")`, `std::to_string` and
    `atoi` produce and read it. */
module Text {

  predicate IsDigit(c: char)
  {
    '0' <= c <= '9'
  }

  predicate AllDigits(s: string)
  {
    forall i :: 0 <= i < |s| ==> IsDigit(s[i])
  }

  function DigitChar(d: nat): (c: char)
    requires d < 10
    ensures IsDigit(c)
  {
    ('0' as int + d) as char
  }

  /** The value of a digit character; other characters count as 0. */
  function DigitValue(c: char): (d: nat)
    ensures d < 10
    ensures IsDigit(c) ==> DigitChar(d) == c
  {
    if IsDigit(c) then c as int - '0' as int else 0
  }

  /** `%u`: the decimal digits of `n`, most significant first, no leading zero. */
  function NatToString(n: nat): (s: string)
    ensures |s| >= 1 && AllDigits(s)
    ensures |s| > 1 ==> s[0] != '0'
  {
    if n < 10 then [DigitChar(n)]
    else
      var p := NatToString(n / 10);
      p + [DigitChar(n % 10)]
  }

  /** `std::to_string` of an `int`: a minus sign before the digits of a
      negative number. */
  function IntToString(n: int): (s: string)
    ensures n >= 0 ==> s == NatToString(n)
    ensures n < 0 ==> s == "-" + NatToString(-n)
  {
    if n >= 0 then NatToString(n) else "-" + NatToString(-n)
  }

  /** The value of a string of digits. */
  function DigitsValue(s: string): nat
  {
    if s == [] then 0 else 10 * DigitsValue(s[..|s| - 1]) + DigitValue(s[|s| - 1])
  }

  /** Printing then reading a number gives it back. */
  lemma {:induction false} NatToStringValue(n: nat)
    ensures DigitsValue(NatToString(n)) == n
  {
    if n >= 10 {
      var s := NatToString(n);
      NatToStringValue(n / 10);
      assert s[..|s| - 1] == NatToString(n / 10);
    }
  }

  /** `atoi`'s scan from position `i`: digits are accumulated into `acc`
      up to the first character that is not a digit, whose position is
      returned with the value. */
  function Scan(s: string, i: nat, acc: nat): (r: (nat, nat))
    requires i <= |s|
    ensures i <= r.1 <= |s|
    decreases |s| - i
  {
    if i == |s| || !IsDigit(s[i]) then (acc, i) else Scan(s, i + 1, 10 * acc + DigitValue(s[i]))
  }

  /** The number written at position `i` of `s` and the position after it. */
  function NumberAt(s: string, i: nat): (r: (nat, nat))
    requires i <= |s|
    ensures i <= r.1 <= |s|
  {
    Scan(s, i, 0)
  }

  /** `s` holds `d` at position `i`. */
  predicate HoldsAt(s: string, i: nat, d: string)
  {
    i + |d| <= |s| && forall k :: 0 <= k < |d| ==> s[i + k] == d[k]
  }

  /** The value of `d` read after `acc`. */
  function Continue(d: string, acc: nat): nat
  {
    if d == [] then acc else 10 * Continue(d[..|d| - 1], acc) + DigitValue(d[|d| - 1])
  }

  lemma {:induction false} ContinueFirst(d: string, acc: nat)
    requires d != []
    ensures Continue(d, acc) == Continue(d[1..], 10 * acc + DigitValue(d[0]))
    decreases |d|
  {
    if |d| > 1 {
      var e := d[..|d| - 1];
      assert e[1..] == d[1..][..|d[1..]| - 1];
      assert e[0] == d[0];
      ContinueFirst(e, acc);
    }
  }

  lemma {:induction false} ContinueZero(d: string)
    ensures Continue(d, 0) == DigitsValue(d)
    decreases |d|
  {
    if d != [] {
      ContinueZero(d[..|d| - 1]);
    }
  }

  /** Scanning the digits `d` held at `i`, followed by the end of the text
      or a non-digit, stops right after them. */
  lemma {:induction false} ScanDigits(s: string, i: nat, d: string, acc: nat)
    requires AllDigits(d) && HoldsAt(s, i, d)
    requires i + |d| == |s| || !IsDigit(s[i + |d|])
    ensures Scan(s, i, acc) == (Continue(d, acc), i + |d|)
    decreases |d|
  {
    if d != [] {
      assert s[i] == d[0];
      assert HoldsAt(s, i + 1, d[1..]) by {
        forall k | 0 <= k < |d| - 1 ensures s[i + 1 + k] == d[1..][k] {
          assert s[i + (k + 1)] == d[k + 1];
        }
      }
      ScanDigits(s, i + 1, d[1..], 10 * acc + DigitValue(d[0]));
      ContinueFirst(d, acc);
    }
  }

  /** The number at the position of printed digits is their value. */
  lemma NumberAtDigits(s: string, i: nat, d: string)
    requires AllDigits(d) && HoldsAt(s, i, d)
    requires i + |d| == |s| || !IsDigit(s[i + |d|])
    ensures NumberAt(s, i) == (DigitsValue(d), i + |d|)
  {
    ScanDigits(s, i, d, 0);
    ContinueZero(d);
  }

  /** Reading a number is unaffected by text placed in front. */
  lemma {:induction false} ScanShift(p: string, u: string, i: nat, acc: nat)
    requires i <= |u|
    ensures Scan(p + u, |p| + i, acc) == (Scan(u, i, acc).0, |p| + Scan(u, i, acc).1)
    decreases |u| - i
  {
    if i < |u| {
      assert (p + u)[|p| + i] == u[i];
      ScanShift(p, u, i + 1, 10 * acc + DigitValue(u[i]));
    }
  }

  lemma NumberAtShift(p: string, u: string, i: nat)
    requires i <= |u|
    ensures NumberAt(p + u, |p| + i) == (NumberAt(u, i).0, |p| + NumberAt(u, i).1)
  {
    ScanShift(p, u, i, 0);
  }
}
