/** The communication settings page: the two serial baud rates chosen from
    the preset table, the serial sampling delay, the keyboard-mapping
    switch and the serial mode's send-on-change options, each changed one
    step at a time by a selector and applied at once. */
module CommunicationSettingsPage {
  import opened Common
  import opened Text
  import opened Bits

  /** A selector's joystick input; only up and down change a value. */
  datatype JoystickState = Up | Down | Other

  /** The serial delay's upper bound in milliseconds. */
  const MAX_SERIAL_DELAY: int := 100
  /** The upper bound of extra sends. */
  const MAX_EXTRA_SEND_COUNT: int := 10
  /** The preset index used when a rate is not in the table (115200). */
  const DEFAULT_BAUD_INDEX: nat := 1

  // ---------------------------------------------------------------------
  // Baud-rate text

  const MEGA: nat := 1000000
  const KILO: nat := 1000

  /** `formatBaudRateText`: whole megabaud as "NM", other rates from 1M up as
      "N.dM" with one truncated decimal, the same with "K" from 1000 up, and
      plain digits below. */
  function FormatBaudRateText(b: u32): string
  {
    if b >= MEGA then
      if b % MEGA == 0 then NatToString(b / MEGA) + "M"
      else NatToString(b / MEGA) + "." + NatToString((b % MEGA) / (MEGA / 10)) + "M"
    else if b >= KILO then
      if b % KILO == 0 then NatToString(b / KILO) + "K"
      else NatToString(b / KILO) + "." + NatToString((b % KILO) / (KILO / 10)) + "K"
    else NatToString(b)
  }

  /** A rate as its text shows it: whole units, tenths of a unit, and the
      unit (1, 1000 or 1000000). */
  datatype BaudReading = BaudReading(whole: nat, tenths: nat, unit: nat)

  /** The rate a reading stands for. */
  function ReadingValue(r: BaudReading): nat
  {
    r.whole * r.unit + r.tenths * (r.unit / 10)
  }

  /** The multiplier a unit suffix stands for. */
  function SuffixUnit(s: string): nat
  {
    if |s| == 1 && s[0] == 'M' then MEGA else if |s| == 1 && s[0] == 'K' then KILO else 1
  }

  /** Reads a rate back from its text: digits, an optional "." and one more
      number of tenths, and the unit suffix. */
  function ReadBaudText(s: string): BaudReading
  {
    var (v, e) := NumberAt(s, 0);
    if e < |s| && s[e] == '.' then
      var (f, e2) := NumberAt(s, e + 1);
      BaudReading(v, f, SuffixUnit(s[e2..]))
    else BaudReading(v, 0, SuffixUnit(s[e..]))
  }

  /** The rate the text shows: the rate truncated to a tenth of its unit. */
  function Shown(b: nat): (r: nat)
    ensures r <= b
    ensures b >= MEGA ==> b - r < MEGA / 10
    ensures KILO <= b < MEGA ==> b - r < KILO / 10
    ensures b < KILO ==> r == b
    ensures b % MEGA == 0 || (b < MEGA && b % KILO == 0) ==> r == b
  {
    if b >= MEGA then WholeTenths(b, MEGA); b - b % (MEGA / 10)
    else if b >= KILO then WholeTenths(b, KILO); b - b % (KILO / 10)
    else b
  }

  /** A whole number of units is a whole number of tenths of a unit. */
  lemma WholeTenths(b: nat, unit: nat)
    requires unit == MEGA || unit == KILO
    ensures b % unit == 0 ==> b % (unit / 10) == 0
  {
    if b % unit == 0 {
      DivModUnique(b, unit / 10, 10 * (b / unit), 0);
    }
  }

  /** Reading the number `d` followed by `rest`, which does not start with a
      digit. */
  lemma ReadNumber(s: string, i: nat, n: nat, rest: string)
    requires i <= |s| && s[i..] == NatToString(n) + rest
    requires rest == [] || !IsDigit(rest[0])
    ensures NumberAt(s, i) == (n, i + |NatToString(n)|)
  {
    var d := NatToString(n);
    assert HoldsAt(s, i, d) by {
      forall k | 0 <= k < |d|
        ensures s[i + k] == d[k]
      {
        assert s[i..][k] == (d + rest)[k];
      }
    }
    if i + |d| < |s| {
      assert s[i + |d|] == s[i..][|d|] == rest[0];
    }
    NumberAtDigits(s, i, d);
    NatToStringValue(n);
  }

  /** A whole number of units reads back as itself. */
  lemma ReadWhole(q: nat, c: char)
    requires c == 'M' || c == 'K'
    ensures ReadBaudText(NatToString(q) + [c]) == BaudReading(q, 0, SuffixUnit([c]))
  {
    var s := NatToString(q) + [c];
    assert s[0..] == s;
    ReadNumber(s, 0, q, [c]);
    assert s[|NatToString(q)|..] == [c];
  }

  /** A rate with tenths reads back as its units and tenths. */
  lemma ReadTenths(q: nat, f: nat, c: char)
    requires c == 'M' || c == 'K'
    ensures ReadBaudText(NatToString(q) + "." + NatToString(f) + [c]) == BaudReading(q, f, SuffixUnit([c]))
  {
    var dq := NatToString(q);
    var df := NatToString(f);
    var s := dq + "." + df + [c];
    ReadUnits(dq, df, q, c);
    ReadFraction(dq, df, f, c);
    assert s[|dq|] == '.';
    assert s[|dq| + 1 + |df|..] == [c];
    ReadDotted(s, q, |dq|, f, |dq| + 1 + |df|);
  }

  /** Text read as a number, a ".", and a second number. */
  lemma ReadDotted(s: string, q: nat, e: nat, f: nat, e2: nat)
    requires NumberAt(s, 0) == (q, e) && e < |s| && s[e] == '.'
    requires NumberAt(s, e + 1) == (f, e2) && e2 <= |s|
    ensures ReadBaudText(s) == BaudReading(q, f, SuffixUnit(s[e2..]))
  {
  }

  lemma ReadUnits(dq: string, df: string, q: nat, c: char)
    requires dq == NatToString(q) && (c == 'M' || c == 'K')
    ensures NumberAt(dq + "." + df + [c], 0) == (q, |dq|)
  {
    var s := dq + "." + df + [c];
    assert s[0..] == dq + ("." + df + [c]);
    ReadNumber(s, 0, q, "." + df + [c]);
  }

  lemma ReadFraction(dq: string, df: string, f: nat, c: char)
    requires df == NatToString(f) && (c == 'M' || c == 'K')
    ensures NumberAt(dq + "." + df + [c], |dq| + 1) == (f, |dq| + 1 + |df|)
  {
    var s := dq + "." + df + [c];
    assert s[|dq| + 1..] == df + [c];
    ReadNumber(s, |dq| + 1, f, [c]);
  }

  /** Whole megabaud and tenths of a megabaud add up to the rate truncated
      to a tenth of a megabaud. */
  lemma MegaTenths(b: nat)
    ensures (b / 1000000) * 1000000 + ((b % 1000000) / 100000) * 100000 == b - b % 100000
  {
    var q := b / 1000000;
    var r := b % 1000000;
    var f := r / 100000;
    assert b == q * 1000000 + f * 100000 + r % 100000;
    assert b % 100000 == r % 100000;
  }

  /** The same for kilobaud. */
  lemma KiloTenths(b: nat)
    ensures (b / 1000) * 1000 + ((b % 1000) / 100) * 100 == b - b % 100
  {
    var q := b / 1000;
    var r := b % 1000;
    var f := r / 100;
    assert b == q * 1000 + f * 100 + r % 100;
    assert b % 100 == r % 100;
  }

  /** The baud text reads back as the rate truncated to a tenth of its
      unit, and exactly for whole units and rates below 1000. */
  lemma FormatThenRead(b: u32)
    ensures ReadingValue(ReadBaudText(FormatBaudRateText(b))) == Shown(b)
  {
    if b >= MEGA {
      if b % MEGA == 0 {
        ReadWhole(b / MEGA, 'M');
        assert FormatBaudRateText(b) == NatToString(b / MEGA) + ['M'];
      } else {
        ReadTenths(b / MEGA, (b % MEGA) / (MEGA / 10), 'M');
        assert FormatBaudRateText(b) == NatToString(b / MEGA) + "." + NatToString((b % MEGA) / (MEGA / 10)) + ['M'];
        MegaTenths(b);
      }
    } else if b >= KILO {
      if b % KILO == 0 {
        ReadWhole(b / KILO, 'K');
        assert FormatBaudRateText(b) == NatToString(b / KILO) + ['K'];
      } else {
        ReadTenths(b / KILO, (b % KILO) / (KILO / 10), 'K');
        assert FormatBaudRateText(b) == NatToString(b / KILO) + "." + NatToString((b % KILO) / (KILO / 10)) + ['K'];
        KiloTenths(b);
      }
    } else {
      var s := NatToString(b);
      assert s[0..] == s + [];
      ReadNumber(s, 0, b, []);
      assert s[|s|..] == [];
    }
  }

  // ---------------------------------------------------------------------
  // One selector step per setting

  /** A baud preset index after one step: up to the last preset, down to
      the first. */
  function BaudIndexStep(i: nat, count: nat, s: JoystickState): (r: nat)
    requires count >= 1
    ensures i < count ==> r < count
    ensures s == Up && i < count - 1 ==> r == i + 1
    ensures s == Down && i > 0 ==> r == i - 1
    ensures s == Other || (s == Up && i >= count - 1) || (s == Down && i == 0) ==> r == i
  {
    if s == Up then (if i < count - 1 then i + 1 else i)
    else if s == Down then (if i > 0 then i - 1 else i)
    else i
  }

  /** A value bounded by `hi` after one step. */
  function BoundedStep(v: int, hi: int, s: JoystickState): (r: int)
    ensures 0 <= v <= hi ==> 0 <= r <= hi
    ensures s == Up && v < hi ==> r == v + 1
    ensures s == Down && v > 0 ==> r == v - 1
    ensures s == Other || (s == Up && v >= hi) || (s == Down && v <= 0) ==> r == v
  {
    if s == Up then (if v < hi then v + 1 else v)
    else if s == Down then (if v > 0 then v - 1 else v)
    else v
  }

  /** Up then down returns to where it started, below the bound. */
  lemma StepBack(v: int, hi: int)
    requires 0 <= v < hi
    ensures BoundedStep(BoundedStep(v, hi, Up), hi, Down) == v
  {
  }

  /** What `ApplySettings` hands to the input and light managers. */
  datatype AppliedSettings = AppliedSettings(
    serialDelay: byte, keyboardMapping: bool, sendOnlyOnChange: bool,
    aggregationDelay: byte, extraSendCount: byte, lightBaud: u32, serialBaud: u32)

  /** The page's settings, held in static members in the firmware; one
      object here. The preset table is the UART layer's, which is not part
      of this model, so it is fixed when the object is made. */
  class CommunicationSettings {
    const rates: seq<u32>
    var serialBaud: u32
    var lightBaud: u32
    var serialDelay: byte
    var keyboardMapping: bool
    var serialBaudIndex: nat
    var lightBaudIndex: nat
    var sendOnlyOnChange: bool
    var aggregationDelay: byte
    var extraSendCount: byte

    ghost predicate Valid()
      reads this
    {
      |rates| > DEFAULT_BAUD_INDEX && serialBaudIndex < |rates| && lightBaudIndex < |rates|
    }

    /** The settings `ApplySettings` sends. */
    function Applied(): AppliedSettings
      reads this
    {
      AppliedSettings(serialDelay, keyboardMapping, sendOnlyOnChange, aggregationDelay, extraSendCount, lightBaud, serialBaud)
    }

    /** The static initial values: 115200 baud at preset 1, everything else
        off or zero. */
    constructor (presets: seq<u32>)
      requires |presets| > DEFAULT_BAUD_INDEX
      ensures Valid() && rates == presets
      ensures serialBaud == 115200 && lightBaud == 115200 && serialBaudIndex == 1 && lightBaudIndex == 1
      ensures serialDelay == 0 && !keyboardMapping && !sendOnlyOnChange && aggregationDelay == 0 && extraSendCount == 0
    {
      rates := presets;
      serialBaud := 115200;
      lightBaud := 115200;
      serialDelay := 0;
      keyboardMapping := false;
      serialBaudIndex := 1;
      lightBaudIndex := 1;
      sendOnlyOnChange := false;
      aggregationDelay := 0;
      extraSendCount := 0;
    }

    /** `findBaudRateIndex`: the first preset equal to the rate, or 1. */
    method FindBaudRateIndex(b: u32) returns (i: nat)
      requires Valid()
      ensures i < |rates|
      ensures b in rates ==> rates[i] == b && forall j :: 0 <= j < i ==> rates[j] != b
      ensures b !in rates ==> i == DEFAULT_BAUD_INDEX
    {
      var k := 0;
      while k < |rates|
        invariant 0 <= k <= |rates|
        invariant forall j :: 0 <= j < k ==> rates[j] != b
      {
        if rates[k] == b {
          return k;
        }
        k := k + 1;
      }
      return DEFAULT_BAUD_INDEX;
    }

    /** `onMai2SerialBaudRateChange`: a step along the presets; the rate
        follows the index only when the index moves. */
    method OnSerialBaudRateChange(s: JoystickState) returns (applied: AppliedSettings)
      requires Valid()
      modifies this
      ensures Valid()
      ensures serialBaudIndex == BaudIndexStep(old(serialBaudIndex), |rates|, s)
      ensures serialBaud == if serialBaudIndex != old(serialBaudIndex) then rates[serialBaudIndex] else old(serialBaud)
      ensures lightBaud == old(lightBaud) && lightBaudIndex == old(lightBaudIndex) && serialDelay == old(serialDelay)
      ensures keyboardMapping == old(keyboardMapping) && sendOnlyOnChange == old(sendOnlyOnChange)
      ensures aggregationDelay == old(aggregationDelay) && extraSendCount == old(extraSendCount)
      ensures applied == Applied()
    {
      if s == Up {
        if serialBaudIndex < |rates| - 1 {
          serialBaudIndex := serialBaudIndex + 1;
          serialBaud := rates[serialBaudIndex];
        }
      } else if s == Down {
        if serialBaudIndex > 0 {
          serialBaudIndex := serialBaudIndex - 1;
          serialBaud := rates[serialBaudIndex];
        }
      }
      applied := Applied();
    }

    /** `onLightManagerBaudRateChange`: the same for the light link. */
    method OnLightBaudRateChange(s: JoystickState) returns (applied: AppliedSettings)
      requires Valid()
      modifies this
      ensures Valid()
      ensures lightBaudIndex == BaudIndexStep(old(lightBaudIndex), |rates|, s)
      ensures lightBaud == if lightBaudIndex != old(lightBaudIndex) then rates[lightBaudIndex] else old(lightBaud)
      ensures serialBaud == old(serialBaud) && serialBaudIndex == old(serialBaudIndex) && serialDelay == old(serialDelay)
      ensures keyboardMapping == old(keyboardMapping) && sendOnlyOnChange == old(sendOnlyOnChange)
      ensures aggregationDelay == old(aggregationDelay) && extraSendCount == old(extraSendCount)
      ensures applied == Applied()
    {
      if s == Up {
        if lightBaudIndex < |rates| - 1 {
          lightBaudIndex := lightBaudIndex + 1;
          lightBaud := rates[lightBaudIndex];
        }
      } else if s == Down {
        if lightBaudIndex > 0 {
          lightBaudIndex := lightBaudIndex - 1;
          lightBaud := rates[lightBaudIndex];
        }
      }
      applied := Applied();
    }

    /** `onSerialDelayChange`: one millisecond up to 100 or down to 0. The
        aggregation delay is left alone, so lowering the serial delay can
        leave it above. */
    method OnSerialDelayChange(s: JoystickState) returns (applied: AppliedSettings)
      modifies this
      ensures serialDelay == BoundedStep(old(serialDelay), MAX_SERIAL_DELAY, s)
      ensures serialBaud == old(serialBaud) && lightBaud == old(lightBaud)
      ensures serialBaudIndex == old(serialBaudIndex) && lightBaudIndex == old(lightBaudIndex)
      ensures keyboardMapping == old(keyboardMapping) && sendOnlyOnChange == old(sendOnlyOnChange)
      ensures aggregationDelay == old(aggregationDelay) && extraSendCount == old(extraSendCount)
      ensures applied == Applied()
    {
      if s == Up {
        if serialDelay < MAX_SERIAL_DELAY {
          serialDelay := serialDelay + 1;
        }
      } else if s == Down {
        if serialDelay > 0 {
          serialDelay := serialDelay - 1;
        }
      }
      applied := Applied();
    }

    /** `onKeyboardMappingToggle`. */
    method OnKeyboardMappingToggle() returns (applied: AppliedSettings)
      modifies this
      ensures keyboardMapping == !old(keyboardMapping)
      ensures serialBaud == old(serialBaud) && lightBaud == old(lightBaud) && serialDelay == old(serialDelay)
      ensures serialBaudIndex == old(serialBaudIndex) && lightBaudIndex == old(lightBaudIndex)
      ensures sendOnlyOnChange == old(sendOnlyOnChange)
      ensures aggregationDelay == old(aggregationDelay) && extraSendCount == old(extraSendCount)
      ensures applied == Applied()
    {
      keyboardMapping := !keyboardMapping;
      applied := Applied();
    }

    /** `onSendOnlyOnChangeToggle`. */
    method OnSendOnlyOnChangeToggle() returns (applied: AppliedSettings)
      modifies this
      ensures sendOnlyOnChange == !old(sendOnlyOnChange)
      ensures serialBaud == old(serialBaud) && lightBaud == old(lightBaud) && serialDelay == old(serialDelay)
      ensures serialBaudIndex == old(serialBaudIndex) && lightBaudIndex == old(lightBaudIndex)
      ensures keyboardMapping == old(keyboardMapping)
      ensures aggregationDelay == old(aggregationDelay) && extraSendCount == old(extraSendCount)
      ensures applied == Applied()
    {
      sendOnlyOnChange := !sendOnlyOnChange;
      applied := Applied();
    }

    /** `onDataAggregationDelayChange`: up only while below the serial
        delay, down to 0. */
    method OnDataAggregationDelayChange(s: JoystickState) returns (applied: AppliedSettings)
      modifies this
      ensures aggregationDelay == BoundedStep(old(aggregationDelay), old(serialDelay), s)
      ensures old(aggregationDelay) <= serialDelay ==> aggregationDelay <= serialDelay
      ensures serialBaud == old(serialBaud) && lightBaud == old(lightBaud) && serialDelay == old(serialDelay)
      ensures serialBaudIndex == old(serialBaudIndex) && lightBaudIndex == old(lightBaudIndex)
      ensures keyboardMapping == old(keyboardMapping) && sendOnlyOnChange == old(sendOnlyOnChange)
      ensures extraSendCount == old(extraSendCount)
      ensures applied == Applied()
    {
      if s == Up {
        if aggregationDelay < serialDelay {
          aggregationDelay := aggregationDelay + 1;
        }
      } else if s == Down {
        if aggregationDelay > 0 {
          aggregationDelay := aggregationDelay - 1;
        }
      }
      applied := Applied();
    }

    /** `onExtraSendCountChange`: one up to 10 or down to 0. */
    method OnExtraSendCountChange(s: JoystickState) returns (applied: AppliedSettings)
      modifies this
      ensures extraSendCount == BoundedStep(old(extraSendCount), MAX_EXTRA_SEND_COUNT, s)
      ensures serialBaud == old(serialBaud) && lightBaud == old(lightBaud) && serialDelay == old(serialDelay)
      ensures serialBaudIndex == old(serialBaudIndex) && lightBaudIndex == old(lightBaudIndex)
      ensures keyboardMapping == old(keyboardMapping) && sendOnlyOnChange == old(sendOnlyOnChange)
      ensures aggregationDelay == old(aggregationDelay)
      ensures applied == Applied()
    {
      if s == Up {
        if extraSendCount < MAX_EXTRA_SEND_COUNT {
          extraSendCount := extraSendCount + 1;
        }
      } else if s == Down {
        if extraSendCount > 0 {
          extraSendCount := extraSendCount - 1;
        }
      }
      applied := Applied();
    }

    /** `loadCurrentSettings`: the input manager's values (when there is
        one) and the light link's rate, with both preset indices looked up
        again. */
    method LoadCurrentSettings(fromInput: Option<AppliedSettings>, lightConfigBaud: u32)
      requires Valid()
      modifies this
      ensures Valid()
      ensures fromInput.Some? ==>
        serialDelay == fromInput.value.serialDelay && keyboardMapping == fromInput.value.keyboardMapping
        && sendOnlyOnChange == fromInput.value.sendOnlyOnChange
        && aggregationDelay == fromInput.value.aggregationDelay && extraSendCount == fromInput.value.extraSendCount
        && serialBaud == fromInput.value.serialBaud
      ensures fromInput.None? ==>
        serialDelay == old(serialDelay) && keyboardMapping == old(keyboardMapping)
        && sendOnlyOnChange == old(sendOnlyOnChange) && aggregationDelay == old(aggregationDelay)
        && extraSendCount == old(extraSendCount) && serialBaud == old(serialBaud)
      ensures lightBaud == lightConfigBaud
      ensures serialBaud in rates ==> rates[serialBaudIndex] == serialBaud
      ensures serialBaud !in rates ==> serialBaudIndex == DEFAULT_BAUD_INDEX
      ensures lightBaud in rates ==> rates[lightBaudIndex] == lightBaud
      ensures lightBaud !in rates ==> lightBaudIndex == DEFAULT_BAUD_INDEX
    {
      if fromInput.Some? {
        var v := fromInput.value;
        serialDelay := v.serialDelay;
        keyboardMapping := v.keyboardMapping;
        sendOnlyOnChange := v.sendOnlyOnChange;
        aggregationDelay := v.aggregationDelay;
        extraSendCount := v.extraSendCount;
        serialBaud := v.serialBaud;
      }
      lightBaud := lightConfigBaud;
      var i := FindBaudRateIndex(serialBaud);
      serialBaudIndex := i;
      i := FindBaudRateIndex(lightBaud);
      lightBaudIndex := i;
    }
  }
}
