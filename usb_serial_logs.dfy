/** The USB serial log channel: the level filter, the `HH:MM:SS.mmm`
    timestamp printed before each line, the bounded queue of buffered
    entries that drops its oldest entry when full, and the per-level log
    counters. */
module UsbSerialLogs {
  import opened Common
  import opened Text

  // ---------------------------------------------------------------------
  // Levels

  datatype LogLevel = Debug | Info | Warning | Error | Critical

  /** The level's `uint8_t` value. */
  function LevelCode(l: LogLevel): nat
  {
    match l
    case Debug => 0
    case Info => 1
    case Warning => 2
    case Error => 3
    case Critical => 4
  }

  /** `should_log`: a level at or above the configured minimum. */
  predicate ShouldLog(level: LogLevel, minLevel: LogLevel)
  {
    LevelCode(level) >= LevelCode(minLevel)
  }

  /** The filter keeps the minimum level and everything more severe, and
      only those: critical entries always pass, and the debug minimum
      passes everything. */
  lemma ShouldLogOrder(level: LogLevel, other: LogLevel, minLevel: LogLevel)
    ensures ShouldLog(minLevel, minLevel) && ShouldLog(Critical, minLevel) && ShouldLog(level, Debug)
    ensures ShouldLog(level, minLevel) && LevelCode(level) <= LevelCode(other) ==> ShouldLog(other, minLevel)
    ensures LevelCode(level) < LevelCode(minLevel) ==> !ShouldLog(level, minLevel)
    ensures LevelCode(level) == LevelCode(other) ==> level == other
  {
  }

  /** `get_level_string`. */
  function LevelString(l: LogLevel): string
  {
    match l
    case Debug => "DEBUG"
    case Info => "INFO"
    case Warning => "WARN"
    case Error => "ERROR"
    case Critical => "CRIT"
  }

  /** Each level prints a name of its own. */
  lemma LevelStringsDistinct(a: LogLevel, b: LogLevel)
    ensures LevelString(a) == LevelString(b) ==> a == b
  {
  }

  // ---------------------------------------------------------------------
  // Timestamps

  function Zeros(k: nat): (s: string)
    ensures |s| == k && AllDigits(s)
    ensures forall i :: 0 <= i < k ==> s[i] == '0'
  {
    if k == 0 then [] else Zeros(k - 1) + ['0']
  }

  /** `%0<width>lu`: the digits, zero-padded on the left to `width`. */
  function Padded(n: nat, width: nat): (s: string)
    ensures AllDigits(s) && |s| == Max(width, |NatToString(n)|)
  {
    var d := NatToString(n);
    if |d| >= width then d else Zeros(width - |d|) + d
  }

  lemma {:induction false} ZerosValue(k: nat)
    ensures DigitsValue(Zeros(k)) == 0
  {
    if k > 0 {
      ZerosValue(k - 1);
      assert Zeros(k)[..k - 1] == Zeros(k - 1);
    }
  }

  /** Leading zeros add nothing to a number's value. */
  lemma {:induction false} LeadingZeros(k: nat, d: string)
    ensures DigitsValue(Zeros(k) + d) == DigitsValue(d)
    decreases |d|
  {
    if d == [] {
      assert Zeros(k) + d == Zeros(k);
      ZerosValue(k);
    } else {
      var s := Zeros(k) + d;
      assert s[..|s| - 1] == Zeros(k) + d[..|d| - 1];
      LeadingZeros(k, d[..|d| - 1]);
    }
  }

  lemma PaddedValue(n: nat, width: nat)
    ensures DigitsValue(Padded(n, width)) == n
  {
    NatToStringValue(n);
    if |NatToString(n)| < width {
      LeadingZeros(width - |NatToString(n)|, NatToString(n));
    }
  }

  /** A number below 10^k prints in at most k digits. */
  lemma {:induction false} DigitCount(n: nat, k: nat, p: nat)
    requires k >= 1 && p >= 10 && n < p && (k == 1 ==> p == 10)
    requires k > 1 ==> p % 10 == 0 && p / 10 >= 10
    requires k == 2 ==> p == 100
    requires k == 3 ==> p == 1000
    requires k == 4 ==> p == 10000
    requires k <= 4
    ensures |NatToString(n)| <= k
    decreases k
  {
    if k > 1 && n >= 10 {
      DigitCount(n / 10, k - 1, p / 10);
    }
  }

  /** The fields of a millisecond timestamp. */
  datatype Clock = Clock(hours: nat, minutes: nat, seconds: nat, millis: nat)

  /** `get_timestamp_string`'s divisions. */
  function ClockOf(t: u32): Clock
  {
    var seconds := t / 1000;
    var millis := t % 1000;
    var minutes := seconds / 60;
    Clock(minutes / 60, minutes % 60, seconds % 60, millis)
  }

  /** `get_timestamp_string`: `%02lu:%02lu:%02lu.%03lu`. */
  function TimestampString(t: u32): string
  {
    var c := ClockOf(t);
    Padded(c.hours, 2) + ":" + Padded(c.minutes, 2) + ":" + Padded(c.seconds, 2) + "." + Padded(c.millis, 3)
  }

  /** The clock's fields are in range and make up the timestamp again;
      the hours of a 32-bit timestamp stay below 1194. */
  lemma ClockFields(t: u32)
    ensures ClockOf(t).minutes < 60 && ClockOf(t).seconds < 60 && ClockOf(t).millis < 1000
    ensures ClockOf(t).hours < 1194
    ensures ((ClockOf(t).hours * 60 + ClockOf(t).minutes) * 60 + ClockOf(t).seconds) * 1000 + ClockOf(t).millis == t
  {
  }

  /** The printed timestamp fits the 16-byte buffer with its terminator,
      so `snprintf` never cuts it: two-digit minutes and seconds,
      three-digit milliseconds and two to four hour digits. */
  lemma TimestampLength(t: u32)
    ensures 12 <= |TimestampString(t)| <= 15
    ensures |Padded(ClockOf(t).minutes, 2)| == 2 && |Padded(ClockOf(t).seconds, 2)| == 2
    ensures |Padded(ClockOf(t).millis, 3)| == 3
  {
    var c := ClockOf(t);
    ClockFields(t);
    DigitCount(c.hours, 4, 10000);
    DigitCount(c.minutes, 2, 100);
    DigitCount(c.seconds, 2, 100);
    DigitCount(c.millis, 3, 1000);
  }

  /** A number followed by `sep`: its value and the text after `sep`. */
  function ReadField(s: string, sep: char): Option<(nat, string)>
  {
    var (v, e) := NumberAt(s, 0);
    if e == 0 || e >= |s| || s[e] != sep then None else Some((v, s[e + 1..]))
  }

  /** A number that makes up the whole text. */
  function ReadLast(s: string): Option<nat>
  {
    var (v, e) := NumberAt(s, 0);
    if e == 0 || e != |s| then None else Some(v)
  }

  /** Reading a timestamp back: hours, minutes, seconds and milliseconds
      separated by ':', ':' and '.', recombined into milliseconds. */
  function ReadTimestamp(s: string): Option<nat>
  {
    match ReadField(s, ':')
    case None => None
    case Some((h, r1)) =>
      match ReadField(r1, ':')
      case None => None
      case Some((m, r2)) =>
        match ReadField(r2, '.')
        case None => None
        case Some((sec, r3)) =>
          match ReadLast(r3)
          case None => None
          case Some(ms) => Some(((h * 60 + m) * 60 + sec) * 1000 + ms)
  }

  /** A digit field and its separator are read off the front of a line. */
  lemma FieldRoundTrip(d: string, sep: char, rest: string)
    requires AllDigits(d) && d != [] && !IsDigit(sep)
    ensures ReadField(d + [sep] + rest, sep) == Some((DigitsValue(d), rest))
  {
    var s := d + [sep] + rest;
    assert HoldsAt(s, 0, d);
    NumberAtDigits(s, 0, d);
    assert s[|d| + 1..] == rest;
  }

  lemma LastRoundTrip(d: string)
    requires AllDigits(d) && d != []
    ensures ReadLast(d) == Some(DigitsValue(d))
  {
    assert HoldsAt(d, 0, d);
    NumberAtDigits(d, 0, d);
  }

  /** Four fields read one after the other make a timestamp. */
  lemma ReadInTurn(s: string, h: nat, m: nat, sec: nat, ms: nat, r1: string, r2: string, r3: string)
    requires ReadField(s, ':') == Some((h, r1)) && ReadField(r1, ':') == Some((m, r2))
    requires ReadField(r2, '.') == Some((sec, r3)) && ReadLast(r3) == Some(ms)
    ensures ReadTimestamp(s) == Some(((h * 60 + m) * 60 + sec) * 1000 + ms)
  {
  }

  /** Four digit fields joined by ':', ':' and '.' read back as their
      values recombined. */
  lemma ReadFields(H: string, M: string, S: string, L: string, h: nat, m: nat, sec: nat, ms: nat)
    requires AllDigits(H) && AllDigits(M) && AllDigits(S) && AllDigits(L)
    requires H != [] && M != [] && S != [] && L != []
    requires DigitsValue(H) == h && DigitsValue(M) == m && DigitsValue(S) == sec && DigitsValue(L) == ms
    ensures ReadTimestamp(H + ":" + M + ":" + S + "." + L) == Some(((h * 60 + m) * 60 + sec) * 1000 + ms)
  {
    var r3 := L;
    var r2 := S + ['.'] + r3;
    var r1 := M + [':'] + r2;
    var s := H + ":" + M + ":" + S + "." + L;
    assert s == H + [':'] + r1;
    FieldRoundTrip(H, ':', r1);
    FieldRoundTrip(M, ':', r2);
    FieldRoundTrip(S, '.', r3);
    LastRoundTrip(L);
    ReadInTurn(s, h, m, sec, ms, r1, r2, r3);
  }

  /** Every printed timestamp reads back as itself. */
  lemma TimestampRoundTrip(t: u32)
    ensures ReadTimestamp(TimestampString(t)) == Some(t)
  {
    var c := ClockOf(t);
    ClockRoundTrip(c);
    assert ((c.hours * 60 + c.minutes) * 60 + c.seconds) * 1000 + c.millis == t by { ClockFields(t); }
  }

  /** The fields of any clock, printed and read back, recombine. */
  lemma ClockRoundTrip(c: Clock)
    ensures ReadTimestamp(Padded(c.hours, 2) + ":" + Padded(c.minutes, 2) + ":" + Padded(c.seconds, 2) + "." + Padded(c.millis, 3))
      == Some(((c.hours * 60 + c.minutes) * 60 + c.seconds) * 1000 + c.millis)
  {
    var H, M, S, L := Padded(c.hours, 2), Padded(c.minutes, 2), Padded(c.seconds, 2), Padded(c.millis, 3);
    assert AllDigits(H) && H != [] && DigitsValue(H) == c.hours by { PaddedField(c.hours, 2); }
    assert AllDigits(M) && M != [] && DigitsValue(M) == c.minutes by { PaddedField(c.minutes, 2); }
    assert AllDigits(S) && S != [] && DigitsValue(S) == c.seconds by { PaddedField(c.seconds, 2); }
    assert AllDigits(L) && L != [] && DigitsValue(L) == c.millis by { PaddedField(c.millis, 3); }
    ReadFields(H, M, S, L, c.hours, c.minutes, c.seconds, c.millis);
    assert ReadTimestamp(H + ":" + M + ":" + S + "." + L)
      == Some(((c.hours * 60 + c.minutes) * 60 + c.seconds) * 1000 + c.millis);
  }

  /** A padded field is a nonempty run of digits worth its number. */
  lemma PaddedField(n: nat, width: nat)
    requires width >= 1
    ensures AllDigits(Padded(n, width)) && Padded(n, width) != [] && DigitsValue(Padded(n, width)) == n
  {
    PaddedValue(n, width);
  }

  // ---------------------------------------------------------------------
  // Statistics

  /** `Statistics`: all entries, each level's entries and the dropped ones,
      32-bit counters. */
  datatype Statistics = Statistics(
    total: u32, debug: u32, info: u32, warning: u32, error: u32, critical: u32, dropped: u32)

  const STATS_ZERO: Statistics := Statistics(0, 0, 0, 0, 0, 0, 0)

  function Inc(x: u32): u32
  {
    (x + 1) % 0x1_0000_0000
  }

  /** A level's counter. */
  function CountOf(st: Statistics, l: LogLevel): u32
  {
    match l
    case Debug => st.debug
    case Info => st.info
    case Warning => st.warning
    case Error => st.error
    case Critical => st.critical
  }

  /** `update_statistics`. */
  function Counted(st: Statistics, l: LogLevel): Statistics
  {
    var st1 := st.(total := Inc(st.total));
    match l
    case Debug => st1.(debug := Inc(st1.debug))
    case Info => st1.(info := Inc(st1.info))
    case Warning => st1.(warning := Inc(st1.warning))
    case Error => st1.(error := Inc(st1.error))
    case Critical => st1.(critical := Inc(st1.critical))
  }

  /** The level counters' sum, taken in 32 bits. */
  function LevelSum(st: Statistics): u32
  {
    (st.debug + st.info + st.warning + st.error + st.critical) % 0x1_0000_0000
  }

  /** Counting an entry moves the total and exactly the entry's own level
      counter by one. */
  lemma CountedStep(st: Statistics, l: LogLevel, other: LogLevel)
    ensures Counted(st, l).total == Inc(st.total) && Counted(st, l).dropped == st.dropped
    ensures CountOf(Counted(st, l), l) == Inc(CountOf(st, l))
    ensures other != l ==> CountOf(Counted(st, l), other) == CountOf(st, other)
  {
  }

  /** `x + 1` and `x + 1 - 2^32` agree modulo 2^32, whichever form the
      counter took. */
  lemma IncMod(x: nat, y: nat)
    requires y == x + 1 || y + 0x1_0000_0000 == x + 1
    ensures y % 0x1_0000_0000 == (x % 0x1_0000_0000 + 1) % 0x1_0000_0000
  {
  }

  /** Counting keeps the total equal to the sum of the level counters,
      both taken in 32 bits. */
  lemma {:induction false} CountedKeepsSum(st: Statistics, l: LogLevel)
    requires LevelSum(st) == st.total
    ensures LevelSum(Counted(st, l)) == Counted(st, l).total
  {
    var r := Counted(st, l);
    var before := st.debug + st.info + st.warning + st.error + st.critical;
    var after := r.debug + r.info + r.warning + r.error + r.critical;
    CountedStep(st, l, l);
    assert after == before - CountOf(st, l) + CountOf(r, l) by {
      match l {
        case Debug =>
        case Info =>
        case Warning =>
        case Error =>
        case Critical =>
      }
    }
    IncMod(before, after);
  }

  // ---------------------------------------------------------------------
  // The queue

  /** A buffered entry: its timestamp, level, message and tag. */
  datatype LogEntry = LogEntry(timestamp: u32, level: LogLevel, message: string, tag: string)

  /** `add_to_queue` on the queue alone: drop the oldest entry when full,
      then append. */
  function Pushed(q: seq<LogEntry>, e: LogEntry, capacity: nat): seq<LogEntry>
  {
    (if |q| >= capacity && q != [] then q[1..] else q) + [e]
  }

  function PushAll(q: seq<LogEntry>, es: seq<LogEntry>, capacity: nat): seq<LogEntry>
  {
    if es == [] then q else Pushed(PushAll(q, es[..|es| - 1], capacity), es[|es| - 1], capacity)
  }

  /** From an empty queue, the queue holds the last `capacity` entries
      pushed, oldest first. */
  lemma {:induction false} QueueKeepsNewest(es: seq<LogEntry>, capacity: nat)
    requires capacity >= 1
    ensures PushAll([], es, capacity) == es[|es| - Min(capacity, |es|)..]
  {
    if es != [] {
      var init := es[..|es| - 1];
      QueueKeepsNewest(init, capacity);
      var q := PushAll([], init, capacity);
      assert q == init[|init| - Min(capacity, |init|)..];
      if |q| >= capacity {
        assert q[1..] + [es[|es| - 1]] == es[|es| - Min(capacity, |es|)..];
      } else {
        assert q + [es[|es| - 1]] == es[|es| - Min(capacity, |es|)..];
      }
    }
  }

  /** The logger's state: its level filter, whether entries are queued,
      the queue with its capacity, and the statistics. */
  class SerialLogs {
    const capacity: nat
    var minLevel: LogLevel
    var buffering: bool
    var queue: seq<LogEntry>
    var stats: Statistics

    ghost predicate Valid()
      reads this
    {
      capacity >= 1 && |queue| <= capacity
    }

    /** A logger with the default minimum level (info). */
    constructor (capacity: nat, buffering: bool)
      requires capacity >= 1
      ensures Valid() && this.capacity == capacity && this.buffering == buffering
      ensures minLevel == Info && queue == [] && stats == STATS_ZERO
    {
      this.capacity := capacity;
      this.buffering := buffering;
      minLevel := Info;
      queue := [];
      stats := STATS_ZERO;
    }

    /** `add_to_queue`: a full queue loses its oldest entry and counts it
        as dropped; the entry is appended. */
    method AddToQueue(e: LogEntry)
      requires Valid()
      modifies this
      ensures Valid() && minLevel == old(minLevel) && buffering == old(buffering)
      ensures queue == Pushed(old(queue), e, capacity)
      ensures stats == (if |old(queue)| >= capacity then old(stats).(dropped := Inc(old(stats).dropped)) else old(stats))
      ensures |queue| == Min(|old(queue)| + 1, capacity) && queue[|queue| - 1] == e
    {
      if |queue| >= capacity {
        queue := queue[1..];
        stats := stats.(dropped := Inc(stats.dropped));
      }
      queue := queue + [e];
    }

    /** `update_statistics`. */
    method UpdateStatistics(level: LogLevel)
      modifies this
      ensures stats == Counted(old(stats), level)
      ensures queue == old(queue) && minLevel == old(minLevel) && buffering == old(buffering)
    {
      stats := stats.(total := Inc(stats.total));
      match level {
        case Debug => stats := stats.(debug := Inc(stats.debug));
        case Info => stats := stats.(info := Inc(stats.info));
        case Warning => stats := stats.(warning := Inc(stats.warning));
        case Error => stats := stats.(error := Inc(stats.error));
        case Critical => stats := stats.(critical := Inc(stats.critical));
      }
    }

    /** `log`: a filtered-out entry changes nothing; otherwise it is queued
        or, without buffering, handed out for sending, and counted. */
    method Log(e: LogEntry) returns (sent: Option<LogEntry>)
      requires Valid()
      modifies this
      ensures Valid() && minLevel == old(minLevel) && buffering == old(buffering)
      ensures !ShouldLog(e.level, minLevel) ==> queue == old(queue) && stats == old(stats) && sent == None
      ensures ShouldLog(e.level, minLevel) && buffering ==>
        queue == Pushed(old(queue), e, capacity) && sent == None
      ensures ShouldLog(e.level, minLevel) && !buffering ==> queue == old(queue) && sent == Some(e)
      ensures ShouldLog(e.level, minLevel) ==>
        (stats.total == Inc(old(stats).total) && CountOf(stats, e.level) == Inc(CountOf(old(stats), e.level)))
    {
      sent := None;
      if !ShouldLog(e.level, minLevel) {
        return;
      }
      if buffering {
        AddToQueue(e);
      } else {
        sent := Some(e);
      }
      UpdateStatistics(e.level);
    }

    /** `process_queue`: while the port is ready, entries leave the queue
        from the front as long as the transport takes them; `accepted` is
        how many entries it takes before refusing one. */
    method ProcessQueue(ready: bool, accepted: nat) returns (sent: seq<LogEntry>)
      requires Valid()
      modifies this
      ensures Valid() && stats == old(stats) && minLevel == old(minLevel)
      ensures !ready ==> sent == [] && queue == old(queue)
      ensures ready ==> sent == old(queue)[..Min(accepted, |old(queue)|)]
      ensures sent + queue == old(queue)
    {
      sent := [];
      if !ready {
        return;
      }
      while queue != [] && |sent| < accepted
        invariant Valid() && stats == old(stats) && minLevel == old(minLevel)
        invariant sent + queue == old(queue) && |sent| <= accepted
        decreases |queue|
      {
        sent := sent + [queue[0]];
        queue := queue[1..];
      }
      assert sent == old(queue)[..|sent|];
    }
  }
}
