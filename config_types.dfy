/** `ConfigValue` (`config_types.h`): a typed configuration value with an
    optional `[min, max]` range that every store is clamped into.

    The C++ struct keeps the value and the bounds in unions; the model keeps
    the integer member that the type selects in `num`, the bounds in
    `minVal`/`maxVal`, the boolean in `flag` and the string in `text`. */
module ConfigTypes {

  datatype ValueType = BOOL | INT8 | UINT8 | UINT16 | UINT32 | FLOAT | STRING

  /** The types whose value is an integer member of the union. */
  predicate IsInteger(t: ValueType)
  {
    t == INT8 || t == UINT8 || t == UINT16 || t == UINT32
  }

  /** `std::numeric_limits<T>::min()` and `max()` of an integer type. */
  function TypeMin(t: ValueType): int
    requires IsInteger(t)
  {
    if t == INT8 then -0x80 else 0
  }

  function TypeMax(t: ValueType): (m: int)
    requires IsInteger(t)
    ensures m > TypeMin(t)
  {
    if t == INT8 then 0x7F
    else if t == UINT8 then 0xFF
    else if t == UINT16 then 0xFFFF
    else 0xFFFF_FFFF
  }

  predicate InType(t: ValueType, v: int)
    requires IsInteger(t)
  {
    TypeMin(t) <= v <= TypeMax(t)
  }

  /** The two comparisons of `clamp_value`: first raise to `lo`, then lower
      to `hi`. */
  function Clamped(v: int, lo: int, hi: int): (r: int)
    ensures r == v || r == lo || r == hi
    ensures lo <= hi ==> lo <= r <= hi
    ensures lo <= v <= hi ==> r == v
    ensures lo > hi ==> r == hi
  {
    var raised := if v < lo then lo else v;
    if raised > hi then hi else raised
  }

  /** Clamping twice is clamping once, whatever the bounds. */
  lemma ClampIdempotent(v: int, lo: int, hi: int)
    ensures Clamped(Clamped(v, lo, hi), lo, hi) == Clamped(v, lo, hi)
  {
  }

  /** Clamping stays within the value's type when the value and bounds do. */
  lemma ClampInType(t: ValueType, v: int, lo: int, hi: int)
    requires IsInteger(t) && InType(t, v) && InType(t, lo) && InType(t, hi)
    ensures InType(t, Clamped(v, lo, hi))
  {
  }

  /** Whether the bounds of an integer constructor make a range: any bound
      other than the type's own limit does. */
  predicate RangeGiven(t: ValueType, lo: int, hi: int)
    requires IsInteger(t)
  {
    lo != TypeMin(t) || hi != TypeMax(t)
  }

  class ConfigValue {
    var vtype: ValueType
    var flag: bool
    var num: int
    var text: string
    var minVal: int
    var maxVal: int
    var hasRange: bool

    /** An integer value and its bounds fit the value's type. */
    ghost predicate Valid()
      reads this
    {
      IsInteger(vtype) ==> InType(vtype, num) && InType(vtype, minVal) && InType(vtype, maxVal)
    }

    /** The value lies in its range, when it has a non-empty one. */
    ghost predicate InRange()
      reads this
    {
      IsInteger(vtype) && hasRange && minVal <= maxVal ==> minVal <= num <= maxVal
    }

    /** `ConfigValue()` and `ConfigValue(bool)`. */
    constructor Bool(b: bool)
      ensures Valid() && InRange() && vtype == BOOL && flag == b && !hasRange
    {
      vtype := BOOL;
      flag := b;
      hasRange := false;
    }

    /** `ConfigValue(const std::string&)`. */
    constructor Text(s: string)
      ensures Valid() && InRange() && vtype == STRING && text == s && !hasRange
    {
      vtype := STRING;
      text := s;
      hasRange := false;
    }

    /** The integer constructors: a range exists unless both bounds are the
        type's limits, and the value is clamped into it. */
    constructor Integer(t: ValueType, val: int, lo: int, hi: int)
      requires IsInteger(t) && InType(t, val) && InType(t, lo) && InType(t, hi)
      ensures Valid() && InRange()
      ensures vtype == t && minVal == lo && maxVal == hi
      ensures hasRange <==> RangeGiven(t, lo, hi)
      ensures num == if hasRange then Clamped(val, lo, hi) else val
      ensures lo <= hi ==> lo <= num <= hi
    {
      vtype := t;
      num := val;
      minVal := lo;
      maxVal := hi;
      hasRange := RangeGiven(t, lo, hi);
      new;
      ClampValue();
    }

    /** `clamp_value`: only a ranged integer value moves. */
    method ClampValue()
      requires Valid()
      modifies this
      ensures Valid() && InRange()
      ensures num == if hasRange && IsInteger(vtype) then Clamped(old(num), minVal, maxVal) else old(num)
      ensures vtype == old(vtype) && flag == old(flag) && text == old(text)
      ensures minVal == old(minVal) && maxVal == old(maxVal) && hasRange == old(hasRange)
    {
      if !hasRange {
        return;
      }
      if IsInteger(vtype) {
        ClampInType(vtype, num, minVal, maxVal);
        if num < minVal {
          num := minVal;
        }
        if num > maxVal {
          num := maxVal;
        }
      }
    }

    /** `set_value` of the overload for type `t`: a value of another type
        changes nothing. */
    method SetValue(t: ValueType, val: int)
      requires Valid() && IsInteger(t) && InType(t, val)
      modifies this
      ensures Valid()
      ensures vtype != t ==> num == old(num)
      ensures vtype == t ==> num == if hasRange then Clamped(val, minVal, maxVal) else val
      ensures vtype == t ==> InRange()
      ensures vtype == old(vtype) && flag == old(flag) && text == old(text)
      ensures minVal == old(minVal) && maxVal == old(maxVal) && hasRange == old(hasRange)
    {
      if vtype == t {
        num := val;
        ClampValue();
      }
    }

    /** `copy_range_from`: the range travels only between values of the
        same type, and the bounds only when the source has a range. */
    method CopyRangeFrom(other: ConfigValue)
      requires Valid() && other.Valid()
      modifies this
      ensures Valid()
      ensures old(vtype) != other.vtype ==> hasRange == old(hasRange) && minVal == old(minVal) && maxVal == old(maxVal)
      ensures old(vtype) == other.vtype ==> hasRange == other.hasRange
      ensures old(vtype) == other.vtype && other.hasRange ==> minVal == other.minVal && maxVal == other.maxVal
      ensures old(vtype) == other.vtype && !other.hasRange ==> minVal == old(minVal) && maxVal == old(maxVal)
      ensures vtype == old(vtype) && num == old(num) && flag == old(flag) && text == old(text)
    {
      if vtype == other.vtype {
        var r, lo, hi := other.hasRange, other.minVal, other.maxVal;
        hasRange := r;
        if hasRange {
          minVal := lo;
          maxVal := hi;
        }
      }
    }
  }
}
