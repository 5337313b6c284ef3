/** The AD7147 calibration tools: edits of one stage's configuration (the
    AFE offset bit fields, the offsets, the clamps and the reset before a
    calibration) and the two sampling accumulators that count 50 CDC
    readings and 50 trigger readings. */
module Ad7147Tools {
  import opened Common
  import opened Bits

  /** The chip has twelve conversion stages. */
  const STAGE_COUNT: nat := 12
  const SENSITIVITY_DEFAULT: u16 := 0x2929
  /** The readings a sampling run takes before it reports done. */
  const SAMPLE_TARGET: nat := 50

  /** A 6-bit field. */
  type u6 = x: int | 0 <= x < 64

  datatype Direction = Pos | Neg

  // ---------------------------------------------------------------------
  // The AFE offset register

  /** The AFE offset register's fields: bits 5-0 the negative offset, bit 7
      its swap, bits 13-8 the positive offset and bit 15 its swap; bits 6
      and 14 are unused. */
  datatype AfeOffset = AfeOffset(neg: u6, negSwap: bool, pos: u6, posSwap: bool)

  const AFE_ZERO: AfeOffset := AfeOffset(0, false, 0, false)

  /** The register's raw 16-bit value. */
  function AfeRaw(a: AfeOffset): u16
  {
    a.neg + (if a.negSwap then 0x80 else 0) + a.pos * 0x100 + (if a.posSwap then 0x8000 else 0)
  }

  /** The fields read out of a raw value. */
  function AfeOfRaw(raw: u16): AfeOffset
  {
    AfeOffset(raw % 64, (raw / 0x80) % 2 == 1, (raw / 0x100) % 64, raw / 0x8000 == 1)
  }

  /** The fields of a word built from them, bit by bit. */
  lemma FieldsOfWord(x: int, neg: u6, ns: int, pos: u6, ps: int)
    requires 0 <= ns <= 1 && 0 <= ps <= 1
    requires x == neg + 0x80 * ns + 0x100 * pos + 0x8000 * ps
    ensures x % 64 == neg && (x / 0x40) % 2 == 0
    ensures x / 0x80 == ns + 2 * pos + 0x100 * ps && (x / 0x80) % 2 == ns
    ensures x / 0x100 == pos + 0x80 * ps && (x / 0x100) % 64 == pos
    ensures (x / 0x4000) % 2 == 0 && x / 0x8000 == ps
  {
    DivModUnique(x, 64, 2 * ns + 4 * pos + 0x200 * ps, neg);
    DivModUnique(2 * ns + 4 * pos + 0x200 * ps, 2, ns + 2 * pos + 0x100 * ps, 0);
    DivModUnique(x, 0x80, ns + 2 * pos + 0x100 * ps, neg);
    DivModUnique(ns + 2 * pos + 0x100 * ps, 2, pos + 0x80 * ps, ns);
    DivModUnique(x, 0x100, pos + 0x80 * ps, neg + 0x80 * ns);
    DivModUnique(pos + 0x80 * ps, 64, 2 * ps, pos);
    DivModUnique(x, 0x4000, 2 * ps, neg + 0x80 * ns + 0x100 * pos);
    DivModUnique(x, 0x8000, ps, neg + 0x80 * ns + 0x100 * pos);
  }

  /** The raw value keeps every field and leaves the unused bits 6 and 14
      clear. */
  lemma AfeRawRoundTrip(a: AfeOffset)
    ensures AfeOfRaw(AfeRaw(a)) == a
    ensures (AfeRaw(a) / 0x40) % 2 == 0 && (AfeRaw(a) / 0x4000) % 2 == 0
  {
    FieldsOfWord(AfeRaw(a), a.neg, if a.negSwap then 1 else 0, a.pos, if a.posSwap then 1 else 0);
  }

  /** A raw value with the unused bits clear is exactly the fields it
      holds. */
  lemma RawAfeRoundTrip(raw: u16)
    requires (raw / 0x40) % 2 == 0 && (raw / 0x4000) % 2 == 0
    ensures AfeRaw(AfeOfRaw(raw)) == raw
  {
    var q6 := raw / 0x40;
    var q8 := raw / 0x100;
    var q14 := raw / 0x4000;
    DivModUnique(raw, 0x80, q6 / 2, raw % 64);
    DivModUnique(raw, 0x100, q8, (raw / 0x80) % 2 * 0x80 + raw % 64);
    DivModUnique(raw, 0x8000, q14 / 2, (raw / 0x100) % 64 * 0x100 + (raw / 0x80) % 2 * 0x80 + raw % 64);
  }

  /** `Set_AEF_Offset`'s fields for an offset of 0-127: the offset's low six
      bits go to the chosen side, and an offset past 63 also sets the other
      side's swap bit with the offset less 64. */
  function AfeFor(dir: Direction, offset: byte): AfeOffset
  {
    var low := offset % 64;
    var over := if offset > 63 then (offset - 64) % 64 else 0;
    match dir
    case Pos => AfeOffset(over, offset > 63, low, false)
    case Neg => AfeOffset(low, false, over, offset > 63)
  }

  /** The offset a register's fields encode for a direction: the side's
      field, plus 64 when the other side's swap bit is set. */
  function AfeOffsetValue(dir: Direction, a: AfeOffset): nat
  {
    match dir
    case Pos => a.pos + (if a.negSwap then 64 else 0)
    case Neg => a.neg + (if a.posSwap then 64 else 0)
  }

  /** The other side of the register. */
  function Mirror(a: AfeOffset): AfeOffset
  {
    AfeOffset(a.pos, a.posSwap, a.neg, a.negSwap)
  }

  /** Up to 63 only the chosen side is set; from 64 to 127 both fields hold
      the offset less 64 and the other side's swap bit is set. Offsets 0-127
      read back unchanged, larger ones as 64 plus their low six bits, and
      the negative direction is the positive one mirrored. */
  lemma AfeForFields(dir: Direction, offset: byte)
    ensures offset <= 63 ==>
      AfeFor(dir, offset) == (if dir == Pos then AfeOffset(0, false, offset, false) else AfeOffset(offset, false, 0, false))
    ensures 64 <= offset < 128 ==>
      (AfeFor(dir, offset).pos == AfeFor(dir, offset).neg == offset - 64
       && (if dir == Pos then AfeFor(dir, offset).negSwap else AfeFor(dir, offset).posSwap))
    ensures offset < 128 ==> AfeOffsetValue(dir, AfeFor(dir, offset)) == offset
    ensures offset >= 128 ==> AfeOffsetValue(dir, AfeFor(dir, offset)) == 64 + offset % 64
    ensures AfeFor(Neg, offset) == Mirror(AfeFor(Pos, offset))
  {
  }

  // ---------------------------------------------------------------------
  // Stage configurations

  /** A stage's registers: the connections, the AFE offset, the sensitivity
      and the offsets and clamps, each 16 bits. */
  datatype StageConfig = StageConfig(
    connection6to0: u16, connection12to7: u16, afe: AfeOffset, sensitivity: u16,
    offsetLow: u16, offsetHigh: u16, offsetHighClamp: u16, offsetLowClamp: u16)

  /** `Clear_and_prepare_stage_settings`' new configuration. */
  function Prepared(c: StageConfig): StageConfig
  {
    c.(afe := AFE_ZERO, sensitivity := SENSITIVITY_DEFAULT, offsetHigh := 0, offsetLow := 0,
       offsetHighClamp := 0xFFFF, offsetLowClamp := 0)
  }

  /** A prepared stage keeps its connections, has no AFE offset, no
      offsets, the default sensitivity and the widest clamps, whatever it
      held before; preparing twice is preparing once. */
  lemma PreparedResets(c: StageConfig, d: StageConfig)
    ensures Prepared(c).connection6to0 == c.connection6to0 && Prepared(c).connection12to7 == c.connection12to7
    ensures AfeRaw(Prepared(c).afe) == 0 && Prepared(c).offsetHigh == 0 && Prepared(c).offsetLow == 0
    ensures Prepared(c).sensitivity == SENSITIVITY_DEFAULT
    ensures Prepared(c).offsetHighClamp == 0xFFFF && Prepared(c).offsetLowClamp == 0
    ensures c.connection6to0 == d.connection6to0 && c.connection12to7 == d.connection12to7 ==> Prepared(c) == Prepared(d)
    ensures Prepared(Prepared(c)) == Prepared(c)
  {
  }

  /** The offset a direction sets: high for positive, low for negative. */
  function OffsetOf(c: StageConfig, dir: Direction): u16
  {
    if dir == Pos then c.offsetHigh else c.offsetLow
  }

  function WithOffset(c: StageConfig, dir: Direction, offset: u16): StageConfig
  {
    if dir == Pos then c.(offsetHigh := offset) else c.(offsetLow := offset)
  }

  /** The clamp a direction sets: high for positive, low for negative. */
  function ClampOf(c: StageConfig, dir: Direction): u16
  {
    if dir == Pos then c.offsetHighClamp else c.offsetLowClamp
  }

  function WithClamp(c: StageConfig, dir: Direction, clamp: u16): StageConfig
  {
    if dir == Pos then c.(offsetHighClamp := clamp) else c.(offsetLowClamp := clamp)
  }

  /** Setting an offset or a clamp of one direction reads back, and leaves
      the other direction and every other register alone. */
  lemma OffsetAndClampReadBack(c: StageConfig, dir: Direction, other: Direction, v: u16)
    requires other != dir
    ensures OffsetOf(WithOffset(c, dir, v), dir) == v && OffsetOf(WithOffset(c, dir, v), other) == OffsetOf(c, other)
    ensures ClampOf(WithClamp(c, dir, v), dir) == v && ClampOf(WithClamp(c, dir, v), other) == ClampOf(c, other)
    ensures WithOffset(c, dir, v).(offsetHigh := c.offsetHigh, offsetLow := c.offsetLow) == c
    ensures WithClamp(c, dir, v).(offsetHighClamp := c.offsetHighClamp, offsetLowClamp := c.offsetLowClamp) == c
  {
  }

  // ---------------------------------------------------------------------
  // Sampling

  /** `CDCSample_result`: the running average, maximum, minimum and count. */
  datatype CdcSample = CdcSample(average: u16, max: u16, min: u16, count: u16)

  const CDC_CLEARED: CdcSample := CdcSample(0, 0, 0, 0)

  /** The running average after one more reading, stored as 16 bits. */
  function NextAverage(r: CdcSample, value: u16): u16
  {
    if r.count != 0 then ((r.average * r.count + value) / (r.count + 1)) % 0x1_0000 else value
  }

  /** `Read_CDC_50Sample` as written: the minimum starts from the cleared
      record's 0. */
  function CdcSampleAsWritten(r: CdcSample, value: u16): CdcSample
  {
    CdcSample(NextAverage(r, value), Max(r.max, value), Min(r.min, value), (r.count + 1) % 0x1_0000)
  }

  /** The intended accumulation: the first reading sets the minimum and the
      maximum, later readings widen them. */
  function CdcSampleStep(r: CdcSample, value: u16): CdcSample
  {
    if r.count == 0 then CdcSample(value, value, value, 1)
    else CdcSample(NextAverage(r, value), Max(r.max, value), Min(r.min, value), (r.count + 1) % 0x1_0000)
  }

  /** The record after a run of readings from a cleared one. */
  function CdcRun(samples: seq<u16>): CdcSample
  {
    if samples == [] then CDC_CLEARED else CdcSampleStep(CdcRun(samples[..|samples| - 1]), samples[|samples| - 1])
  }

  function CdcRunAsWritten(samples: seq<u16>): CdcSample
  {
    if samples == [] then CDC_CLEARED else CdcSampleAsWritten(CdcRunAsWritten(samples[..|samples| - 1]), samples[|samples| - 1])
  }

  /** As written, the minimum of any run from a cleared record is 0. */
  lemma {:induction false} MinStaysZero(samples: seq<u16>)
    ensures CdcRunAsWritten(samples).min == 0
  {
    if samples != [] {
      MinStaysZero(samples[..|samples| - 1]);
    }
  }

  /** Readings 100 and 200: as written the minimum is 0, intended 100. */
  lemma MinStaysZeroExample()
    ensures CdcRunAsWritten([100, 200]).min == 0
    ensures CdcRun([100, 200]).min == 100
  {
    assert [100, 200][..1] == [100];
    assert [100][..0] == [];
  }

  lemma PositiveFactor(d: int, k: int)
    requires d > 0
    ensures d * k > 0 <==> k > 0
  {
    if k > 0 {
      MulPos(d, k);
    } else {
      MulMono(d, k, 0);
    }
  }

  /** A quotient of a value between `lo * d` and `hi * d` lies between `lo`
      and `hi`. */
  lemma QuotientBetween(x: int, d: int, lo: int, hi: int)
    requires d > 0 && lo * d <= x <= hi * d
    ensures lo <= x / d <= hi
  {
    var q := x / d;
    var r := x % d;
    assert x == d * q + r;
    assert d * (q - lo + 1) == x - r - d * lo + d;
    PositiveFactor(d, q - lo + 1);
    assert d * (hi - q + 1) == d * hi - x + r + d;
    PositiveFactor(d, hi - q + 1);
  }

  /** An integer average of values in [lo, hi] stays in [lo, hi]. */
  lemma AverageBetween(a: int, n: nat, v: int, lo: int, hi: int)
    requires lo <= a <= hi && lo <= v <= hi
    ensures lo <= (a * n + v) / (n + 1) <= hi
  {
    MulMono(n, lo, a);
    MulMono(n, a, hi);
    assert lo * (n + 1) <= a * n + v <= hi * (n + 1);
    QuotientBetween(a * n + v, n + 1, lo, hi);
  }

  /** One reading added to a record with readings: the count grows by one,
      the minimum and maximum take the reading in, and the average stays
      between them. */
  lemma CdcStepMeaning(r: CdcSample, v: u16)
    requires 0 < r.count < 0xFFFF && r.min <= r.average <= r.max
    ensures CdcSampleStep(r, v).count == r.count + 1
    ensures CdcSampleStep(r, v).min == Min(r.min, v) && CdcSampleStep(r, v).max == Max(r.max, v)
    ensures CdcSampleStep(r, v).min <= CdcSampleStep(r, v).average <= CdcSampleStep(r, v).max
  {
    var a := (r.average * r.count + v) / (r.count + 1);
    AverageBetween(r.average, r.count, v, Min(r.min, v), Max(r.max, v));
    assert a % 0x1_0000 == a;
    assert NextAverage(r, v) == a;
  }

  /** Over fewer than 65536 readings the record counts them, its minimum and
      maximum are the least and greatest reading, and the average lies
      between the two. */
  lemma {:induction false} CdcRunMeaning(samples: seq<u16>)
    requires 0 < |samples| < 0x1_0000
    ensures CdcRun(samples).count == |samples|
    ensures CdcRun(samples).min in samples && CdcRun(samples).max in samples
    ensures forall i :: 0 <= i < |samples| ==> CdcRun(samples).min <= samples[i] <= CdcRun(samples).max
    ensures CdcRun(samples).min <= CdcRun(samples).average <= CdcRun(samples).max
  {
    var init := samples[..|samples| - 1];
    var v := samples[|samples| - 1];
    assert CdcRun(samples) == CdcSampleStep(CdcRun(init), v);
    if init != [] {
      CdcRunMeaning(init);
      var r := CdcRun(init);
      CdcStepMeaning(r, v);
      assert forall i :: 0 <= i < |init| ==> samples[i] == init[i];
      assert r.min in init && r.max in init;
    }
  }

  /** `TriggleSample`: readings with the stage's bit set, without it, and
      all readings. */
  datatype TriggleCounts = TriggleCounts(triggle: u16, notTriggle: u16, count: u16)

  const TRIGGLE_CLEARED: TriggleCounts := TriggleCounts(0, 0, 0)

  /** One `Read_Triggle_50Sample` call: the stage's bit of the sample
      counts as a trigger, every reading is counted, all in 16 bits. */
  function TriggleStep(t: TriggleCounts, sample: u32, stage: nat): TriggleCounts
  {
    if Bit(sample, stage) then t.(triggle := (t.triggle + 1) % 0x1_0000, count := (t.count + 1) % 0x1_0000)
    else t.(notTriggle := (t.notTriggle + 1) % 0x1_0000, count := (t.count + 1) % 0x1_0000)
  }

  function TriggleRun(samples: seq<u32>, stage: nat): TriggleCounts
  {
    if samples == [] then TRIGGLE_CLEARED
    else TriggleStep(TriggleRun(samples[..|samples| - 1], stage), samples[|samples| - 1], stage)
  }

  /** The readings with the stage's bit set. */
  function Triggered(samples: seq<u32>, stage: nat): nat
  {
    if samples == [] then 0
    else Triggered(samples[..|samples| - 1], stage) + (if Bit(samples[|samples| - 1], stage) then 1 else 0)
  }

  /** Over fewer than 65536 readings each one is counted exactly once, as a
      trigger exactly when its stage bit is set. */
  lemma {:induction false} TriggleRunCounts(samples: seq<u32>, stage: nat)
    requires |samples| < 0x1_0000
    ensures TriggleRun(samples, stage).triggle == Triggered(samples, stage)
    ensures TriggleRun(samples, stage).notTriggle == |samples| - Triggered(samples, stage)
    ensures TriggleRun(samples, stage).count == |samples|
  {
    if samples != [] {
      var init := samples[..|samples| - 1];
      var v := samples[|samples| - 1];
      TriggleRunCounts(init, stage);
      assert TriggleRun(samples, stage) == TriggleStep(TriggleRun(init, stage), v, stage);
      assert Triggered(samples, stage) == Triggered(init, stage) + (if Bit(v, stage) then 1 else 0);
      TriggleStepCounts(TriggleRun(init, stage), v, stage, |init|, Triggered(init, stage));
    }
  }

  /** One reading below the 16-bit limit: no counter wraps. */
  lemma TriggleStepCounts(t: TriggleCounts, v: u32, stage: nat, n: nat, k: nat)
    requires k <= n < 0xFFFF && t.triggle as int == k && t.notTriggle as int == n - k && t.count as int == n
    ensures var k' := k + (if Bit(v, stage) then 1 else 0);
      var t' := TriggleStep(t, v, stage);
      t'.triggle as int == k' && t'.notTriggle as int == n + 1 - k' && t'.count as int == n + 1
  {
  }

  /** A sampling run reports done on a call whose count before the call is
      50 or more: after 50 readings from a cleared record, on the 51st. */
  predicate Done(count: u16)
  {
    count >= SAMPLE_TARGET
  }

  lemma DoneAfterTarget(samples: seq<u32>, stage: nat, cdc: seq<u16>)
    requires |samples| < 0x1_0000 && 0 < |cdc| < 0x1_0000
    ensures Done(TriggleRun(samples, stage).count) <==> |samples| >= SAMPLE_TARGET
    ensures Done(CdcRun(cdc).count) <==> |cdc| >= SAMPLE_TARGET
  {
    TriggleRunCounts(samples, stage);
    CdcRunMeaning(cdc);
  }

  /** A `CDCSample_result` the caller owns and the tools update. */
  class CdcSampleResult {
    var average: u16
    var max: u16
    var min: u16
    var count: u16

    function State(): CdcSample
      reads this
    {
      CdcSample(average, max, min, count)
    }

    constructor ()
      ensures State() == CDC_CLEARED
    {
      average, max, min, count := 0, 0, 0, 0;
    }

    method Clear()
      modifies this
      ensures State() == CDC_CLEARED
    {
      average, max, min, count := 0, 0, 0, 0;
    }
  }

  /** A `TriggleSample` the caller owns and the tools update. */
  class TriggleSample {
    var triggle: u16
    var notTriggle: u16
    var count: u16

    function Counts(): TriggleCounts
      reads this
    {
      TriggleCounts(triggle, notTriggle, count)
    }

    constructor ()
      ensures Counts() == TRIGGLE_CLEARED
    {
      triggle, notTriggle, count := 0, 0, 0;
    }

    method Clear()
      modifies this
      ensures Counts() == TRIGGLE_CLEARED
    {
      triggle, notTriggle, count := 0, 0, 0;
    }
  }

  /** The tools over the chip's twelve stage configurations. */
  class CalibrationTools {
    const stages: array<StageConfig>

    ghost predicate Valid()
      reads this
    {
      stages.Length == STAGE_COUNT
    }

    constructor (initial: seq<StageConfig>)
      requires |initial| == STAGE_COUNT
      ensures Valid() && stages[..] == initial && fresh(stages)
    {
      stages := new StageConfig[STAGE_COUNT](i requires 0 <= i < STAGE_COUNT => initial[i]);
    }

    /** `setStageConfig` as far as this model sees it: the stage's stored
        configuration becomes the given one. */
    method SetStageConfig(stage: byte, config: StageConfig)
      requires Valid() && stage < STAGE_COUNT
      modifies stages
      ensures stages[..] == old(stages[..])[stage := config]
    {
      stages[stage] := config;
    }

    /** `Clear_and_prepare_stage_settings`. */
    method ClearAndPrepare(stage: byte)
      requires Valid() && stage < STAGE_COUNT
      modifies stages
      ensures stages[..] == old(stages[..])[stage := Prepared(old(stages[stage]))]
    {
      var config := stages[stage];
      config := config.(afe := config.afe.(posSwap := false, pos := 0, negSwap := false, neg := 0));
      config := config.(sensitivity := SENSITIVITY_DEFAULT);
      config := config.(offsetHigh := 0, offsetLow := 0);
      config := config.(offsetHighClamp := 0xFFFF, offsetLowClamp := 0);
      SetStageConfig(stage, config);
    }

    /** `Set_AEF_Offset`. */
    method SetAfeOffset(stage: byte, dir: Direction, offset: byte)
      requires Valid() && stage < STAGE_COUNT
      modifies stages
      ensures stages[..] == old(stages[..])[stage := old(stages[stage]).(afe := AfeFor(dir, offset))]
    {
      var config := stages[stage];
      var afe := config.afe;
      if dir == Pos {
        afe := afe.(posSwap := false, pos := offset % 64, negSwap := false, neg := 0);
        if offset > 63 {
          afe := afe.(negSwap := true, neg := (offset - 64) % 64);
        }
      } else {
        afe := afe.(negSwap := false, neg := offset % 64, posSwap := false, pos := 0);
        if offset > 63 {
          afe := afe.(posSwap := true, pos := (offset - 64) % 64);
        }
      }
      SetStageConfig(stage, config.(afe := afe));
    }

    /** `Set_Offset`. */
    method SetOffset(stage: byte, dir: Direction, offset: u16)
      requires Valid() && stage < STAGE_COUNT
      modifies stages
      ensures stages[..] == old(stages[..])[stage := WithOffset(old(stages[stage]), dir, offset)]
    {
      var config := stages[stage];
      if dir == Pos {
        config := config.(offsetHigh := offset);
      } else {
        config := config.(offsetLow := offset);
      }
      SetStageConfig(stage, config);
    }

    /** `Set_Clamp`. */
    method SetClamp(stage: byte, dir: Direction, clamp: u16)
      requires Valid() && stage < STAGE_COUNT
      modifies stages
      ensures stages[..] == old(stages[..])[stage := WithClamp(old(stages[stage]), dir, clamp)]
    {
      var config := stages[stage];
      if dir == Pos {
        config := config.(offsetHighClamp := clamp);
      } else {
        config := config.(offsetLowClamp := clamp);
      }
      SetStageConfig(stage, config);
    }

    /** `Read_CDC_50Sample` with the minimum seeded by the first reading;
        `value` is the stage's CDC reading. */
    method ReadCdc50Sample(value: u16, result: CdcSampleResult) returns (done: bool)
      modifies result
      ensures result.State() == CdcSampleStep(old(result.State()), value)
      ensures done == Done(old(result.count))
    {
      if result.count != 0 {
        result.average := ((result.average * result.count + value) / (result.count + 1)) % 0x1_0000;
        result.min := Min(result.min, value);
      } else {
        result.average := value;
        result.min := value;
      }
      result.max := if result.count == 0 then value else Max(result.max, value);
      done := result.count >= SAMPLE_TARGET;
      result.count := (result.count + 1) % 0x1_0000;
    }

    /** `Read_Triggle_50Sample`: `sample` holds one bit per stage. */
    method ReadTriggle50Sample(stage: byte, sample: u32, result: TriggleSample) returns (done: bool)
      requires stage < STAGE_COUNT
      modifies result
      ensures result.Counts() == TriggleStep(old(result.Counts()), sample, stage)
      ensures done == Done(old(result.count))
    {
      if Bit(sample, stage) {
        result.triggle := (result.triggle + 1) % 0x1_0000;
      } else {
        result.notTriggle := (result.notTriggle + 1) % 0x1_0000;
      }
      done := result.count >= SAMPLE_TARGET;
      result.count := (result.count + 1) % 0x1_0000;
    }
  }
}
