/** The uptime text of the main page (`MainPage::format_uptime`). */
module MainPage {
  import opened Common
  import opened Text
  import opened Bits

  /** Whole hours, the minutes within the hour and the seconds within the
      minute of an uptime in milliseconds. */
  function UptimeParts(uptimeMs: u32): (hms: (nat, nat, nat))
    ensures hms.1 < 60 && hms.2 < 60
    ensures hms.0 * 3600 + hms.1 * 60 + hms.2 == uptimeMs / 1000
  {
    var total := uptimeMs / 1000;
    var h, r := total / 3600, total % 3600;
    DivModUnique(total, 60, 60 * h + r / 60, r % 60);
    (h, r / 60, total % 60)
  }

  /** `format_uptime`: "XhYmZs" with hours, "YmZs" with minutes only,
      "Zs" otherwise. */
  function FormatUptime(uptimeMs: u32): (t: string)
    ensures |t| >= 2 && t[|t| - 1] == 's'
  {
    FormatParts(UptimeParts(uptimeMs))
  }

  /** The `snprintf` step of `format_uptime`. */
  function FormatParts(hms: (nat, nat, nat)): string
  {
    var (h, m, s) := hms;
    if h > 0 then NatToString(h) + ("h" + (NatToString(m) + ("m" + (NatToString(s) + "s"))))
    else if m > 0 then NatToString(m) + ("m" + (NatToString(s) + "s"))
    else NatToString(s) + "s"
  }

  /** Reads a text in the `format_uptime` shape back as seconds. */
  function ParseUptime(text: string): Option<nat>
  {
    var (a, i) := NumberAt(text, 0);
    if i + 1 == |text| && text[i] == 's' then Some(a)
    else if i < |text| && text[i] == 'm' then
      var (b, j) := NumberAt(text, i + 1);
      if j + 1 == |text| && text[j] == 's' then Some(a * 60 + b) else None
    else if i < |text| && text[i] == 'h' then
      var (b, j) := NumberAt(text, i + 1);
      if j < |text| && text[j] == 'm' then
        var (c, k) := NumberAt(text, j + 1);
        if k + 1 == |text| && text[k] == 's' then Some(a * 3600 + b * 60 + c) else None
      else None
    else None
  }

  /** The text holds the whole number of seconds of the uptime. */
  lemma FormatUptimeParses(uptimeMs: u32)
    ensures ParseUptime(FormatUptime(uptimeMs)) == Some(uptimeMs / 1000)
  {
    FormatPartsParses(UptimeParts(uptimeMs));
  }

  lemma FormatPartsParses(hms: (nat, nat, nat))
    ensures ParseUptime(FormatParts(hms)) == Some(hms.0 * 3600 + hms.1 * 60 + hms.2)
  {
    var (h, m, s) := hms;
    var hs, ms, ss := NatToString(h), NatToString(m), NatToString(s);
    if h > 0 {
      NatToStringValue(h);
      NatToStringValue(m);
      NatToStringValue(s);
      ParseThreeUnits(hs, ms, ss, h, m, s);
      assert FormatParts(hms) == hs + ("h" + (ms + ("m" + (ss + "s"))));
    } else if m > 0 {
      NatToStringValue(m);
      NatToStringValue(s);
      ParseTwoUnits(ms, ss, m, s);
      assert FormatParts(hms) == ms + ("m" + (ss + "s"));
    } else {
      NatToStringValue(s);
      ParseOneUnit(ss, s);
      assert FormatParts(hms) == ss + "s";
    }
  }

  lemma ParseOneUnit(ss: string, c: nat)
    requires AllDigits(ss) && c == DigitsValue(ss)
    ensures ParseUptime(ss + "s") == Some(c)
  {
    var t := ss + "s";
    NumberAtDigits(t, 0, ss);
  }

  lemma ParseTwoUnits(ms: string, ss: string, a: nat, b: nat)
    requires AllDigits(ms) && AllDigits(ss) && a == DigitsValue(ms) && b == DigitsValue(ss)
    ensures ParseUptime(ms + ("m" + (ss + "s"))) == Some(a * 60 + b)
  {
    TwoUnitsLayout(ms, ss, a, b);
    MinutesStage(ms + ("m" + (ss + "s")), a, |ms|, b, |ms| + 1 + |ss|);
  }

  lemma TwoUnitsLayout(ms: string, ss: string, a: nat, b: nat)
    requires AllDigits(ms) && AllDigits(ss) && a == DigitsValue(ms) && b == DigitsValue(ss)
    ensures var t := ms + ("m" + (ss + "s"));
            var i := |ms|;
            NumberAt(t, 0) == (a, i) && t[i] == 'm' &&
            NumberAt(t, i + 1) == (b, i + 1 + |ss|) &&
            |t| == i + 1 + |ss| + 1 && t[i + 1 + |ss|] == 's'
  {
    var t := ms + ("m" + (ss + "s"));
    var i := |ms|;
    assert t[i] == 'm' && |t| == i + 1 + |ss| + 1 && t[i + 1 + |ss|] == 's';
    NumberAtDigits(t, 0, ms);
    assert HoldsAt(t, i + 1, ss) by {
      forall k | 0 <= k < |ss| ensures t[i + 1 + k] == ss[k] { }
    }
    NumberAtDigits(t, i + 1, ss);
  }

  lemma ParseThreeUnits(hs: string, ms: string, ss: string, a: nat, b: nat, c: nat)
    requires AllDigits(hs) && AllDigits(ms) && AllDigits(ss)
    requires a == DigitsValue(hs) && b == DigitsValue(ms) && c == DigitsValue(ss)
    ensures ParseUptime(hs + ("h" + (ms + ("m" + (ss + "s"))))) == Some(a * 3600 + b * 60 + c)
  {
    ThreeUnitsLayout(hs, ms, ss, a, b, c);
    var j := |hs| + 1 + |ms|;
    HoursStage(hs + ("h" + (ms + ("m" + (ss + "s")))), a, |hs|, b, j, c, j + 1 + |ss|);
  }

  lemma ThreeUnitsLayout(hs: string, ms: string, ss: string, a: nat, b: nat, c: nat)
    requires AllDigits(hs) && AllDigits(ms) && AllDigits(ss)
    requires a == DigitsValue(hs) && b == DigitsValue(ms) && c == DigitsValue(ss)
    ensures var t := hs + ("h" + (ms + ("m" + (ss + "s"))));
            var i := |hs|;
            var j := i + 1 + |ms|;
            NumberAt(t, 0) == (a, i) && t[i] == 'h' &&
            NumberAt(t, i + 1) == (b, j) && t[j] == 'm' &&
            NumberAt(t, j + 1) == (c, j + 1 + |ss|) &&
            |t| == j + 1 + |ss| + 1 && t[j + 1 + |ss|] == 's'
  {
    var u := ms + ("m" + (ss + "s"));
    var t := hs + ("h" + u);
    TwoUnitsLayout(ms, ss, b, c);
    assert t[|hs|] == 'h' && t[|hs| + 1 + |ms|] == u[|ms|];
    assert t[|hs| + 1 + |ms| + 1 + |ss|] == u[|ms| + 1 + |ss|];
    NumberAtShift("h", u, 0);
    NumberAtShift(hs, "h" + u, 1);
    NumberAtShift("h", u, |ms| + 1);
    NumberAtShift(hs, "h" + u, 1 + |ms| + 1);
    assert HoldsAt(t, 0, hs);
    NumberAtDigits(t, 0, hs);
  }

  lemma MinutesStage(t: string, a: nat, i: nat, b: nat, j: nat)
    requires NumberAt(t, 0) == (a, i) && i < |t| && t[i] == 'm'
    requires i + 1 <= |t| && NumberAt(t, i + 1) == (b, j) && j + 1 == |t| && t[j] == 's'
    ensures ParseUptime(t) == Some(a * 60 + b)
  {
  }

  lemma HoursStage(t: string, a: nat, i: nat, b: nat, j: nat, c: nat, k: nat)
    requires NumberAt(t, 0) == (a, i) && i < |t| && t[i] == 'h'
    requires NumberAt(t, i + 1) == (b, j) && j < |t| && t[j] == 'm'
    requires NumberAt(t, j + 1) == (c, k) && k + 1 == |t| && t[k] == 's'
    ensures ParseUptime(t) == Some(a * 3600 + b * 60 + c)
  {
  }

  /** The shape of the text follows the largest non-zero unit. */
  lemma FormatUptimeShape(uptimeMs: u32)
    ensures var t := FormatUptime(uptimeMs);
            t[|t| - 1] == 's' && ('h' in t <==> uptimeMs >= 3_600_000) && ('m' in t <==> uptimeMs >= 60_000)
  {
    var (h, m, s) := UptimeParts(uptimeMs);
    var t := FormatUptime(uptimeMs);
    var hs, ms, ss := NatToString(h), NatToString(m), NatToString(s);
    assert 'h' !in hs && 'h' !in ms && 'h' !in ss && 'm' !in hs && 'm' !in ms && 'm' !in ss by {
      NoLetters(hs); NoLetters(ms); NoLetters(ss);
    }
    if h > 0 {
      assert t == hs + ("h" + (ms + ("m" + (ss + "s"))));
      assert t[|hs|] == 'h' && t[|hs| + 1 + |ms|] == 'm';
    } else if m > 0 {
      assert t == ms + ("m" + (ss + "s"));
      assert t[|ms|] == 'm';
      assert 'h' !in t;
    } else {
      assert t == ss + "s";
      assert 'h' !in t && 'm' !in t;
    }
  }

  lemma NoLetters(d: string)
    requires AllDigits(d)
    ensures 'h' !in d && 'm' !in d
  {
  }
}
