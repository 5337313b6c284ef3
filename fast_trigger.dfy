/** The touch sensor's fast trigger: per channel it tracks the highest and
    lowest reading (above the baseline) since the channel became active,
    and it withholds an active channel from the reported touch status once
    the signal has dropped from its peak by more than a share of the
    baseline, until the signal rises again. This is the firmware's
    "next expected state" variant, the one its header selects. */
module FastTrigger {
  import opened Common
  import opened Bits

  /** The sensor's capacitive channels. */
  const CHANNELS: nat := 12
  /** The default trigger share: 70 per mille of the baseline. */
  const X_PERMILLE_DEFAULT: u16 := 70
  /** The extrema's "no value" markers. */
  const INVALID_HIGH: int := 0
  const INVALID_LOW: int := 16383
  const ALL_SET: u16 := 0xFFFF

  /** `fast_ch_t`: the baseline, the trigger threshold, the high and low
      extreme with their timestamps (0 for none), and whether the next
      activation starts afresh. */
  datatype FastChannel = FastChannel(
    baseline: u16, xDelta: u16, zH: int, zL: int, zHt: nat, zLt: nat, needReset: bool)

  /** The channel record before any initialisation (static storage). */
  const ZERO_CHANNEL: FastChannel := FastChannel(0, 0, 0, 0, 0, 0, false)

  /** The threshold: `baseline * permille / 1000`, with the product taken in
      32 bits and the result cut to 16 bits. */
  function XDelta(baseline: u16, permille: u16): u16
  {
    ((baseline * permille) % 0x1_0000_0000 / 1000) % 0x1_0000
  }

  /** For shares up to 1000 per mille nothing wraps: the threshold is the
      share of the baseline, rounded down, and never above the baseline. */
  lemma XDeltaIsShare(baseline: u16, permille: u16)
    requires permille <= 1000
    ensures XDelta(baseline, permille) == baseline * permille / 1000
    ensures XDelta(baseline, permille) * 1000 <= baseline * permille < (XDelta(baseline, permille) + 1) * 1000
    ensures XDelta(baseline, permille) <= baseline
  {
    MulMono(baseline, permille, 1000);
    ShareOf(baseline * permille, baseline);
  }

  lemma ShareOf(x: nat, b: u16)
    requires x <= b * 1000
    ensures (x % 0x1_0000_0000 / 1000) % 0x1_0000 == x / 1000 <= b
    ensures x / 1000 * 1000 <= x < (x / 1000 + 1) * 1000
  {
  }

  /** The channel after the baseline read this cycle: a changed baseline
      is taken and the threshold recomputed. */
  function Rebased(ch: FastChannel, baseline: u16, permille: u16): FastChannel
  {
    if baseline != ch.baseline then ch.(baseline := baseline, xDelta := XDelta(baseline, permille)) else ch
  }

  /** An active channel's extrema after this cycle's reading: reset first
      on a fresh activation, then widened by the reading's distance from
      the baseline. */
  function Tracked(ch: FastChannel, raw: u16, now: nat): FastChannel
  {
    var c1 := if ch.needReset then ch.(needReset := false, zH := INVALID_HIGH, zL := INVALID_LOW, zHt := now, zLt := now) else ch;
    var d := raw - c1.baseline;
    var c2 := if d > c1.zH then c1.(zH := d, zHt := now) else c1;
    if d < c2.zL then c2.(zL := d, zLt := now) else c2
  }

  /** The more recent extreme (the high one on a tie), timestamp and value;
      (0, 0) when neither is recorded. */
  function Latest(ch: FastChannel): (nat, int)
  {
    if ch.zHt != 0 && ch.zHt >= ch.zLt then (ch.zHt, ch.zH)
    else if ch.zLt != 0 then (ch.zLt, ch.zL)
    else (0, 0)
  }

  /** The older extreme (the high one on a tie). */
  function Oldest(ch: FastChannel): (nat, int)
  {
    if ch.zHt != 0 && (ch.zLt == 0 || ch.zHt <= ch.zLt) then (ch.zHt, ch.zH)
    else if ch.zLt != 0 then (ch.zLt, ch.zL)
    else (0, 0)
  }

  function Abs(x: int): nat
  {
    if x >= 0 then x else -x
  }

  /** The decision on the tracked extrema: a swing larger than the
      threshold from the older to the newer extreme withholds the channel
      and forgets the high extreme when it is a drop, and forgets the low
      extreme when it is a rise. The boolean says whether the channel is
      withheld. */
  function Decide(ch: FastChannel): (FastChannel, bool)
  {
    var (lt, lv) := Latest(ch);
    var (ot, ov) := Oldest(ch);
    if lt != 0 && ot != 0 && Abs(ov - lv) > ch.xDelta then
      if ov - lv > 0 then (ch.(zH := INVALID_HIGH, zHt := 0), true)
      else (ch.(zL := INVALID_LOW, zLt := 0), false)
    else (ch, false)
  }

  /** One channel's cycle: the new record and whether the channel is
      withheld from the output. An inactive channel only waits for a fresh
      start. */
  function ChannelStep(ch: FastChannel, baseline: u16, raw: u16, active: bool, now: nat, permille: u16): (FastChannel, bool)
  {
    var c := Rebased(ch, baseline, permille);
    if !active then (c.(needReset := true), false)
    else Decide(Tracked(c, raw, now))
  }

  /** An inactive channel is never withheld and starts afresh on its next
      activation; its extrema are kept. */
  lemma InactiveChannel(ch: FastChannel, baseline: u16, raw: u16, now: nat, permille: u16)
    ensures ChannelStep(ch, baseline, raw, false, now, permille).0.needReset
    ensures !ChannelStep(ch, baseline, raw, false, now, permille).1
    ensures ChannelStep(ch, baseline, raw, false, now, permille).0.zH == ch.zH
    ensures ChannelStep(ch, baseline, raw, false, now, permille).0.zL == ch.zL
  {
  }

  /** A fresh activation ignores whatever extrema the channel held, leaves
      the channel ready for release (it is not withheld on that cycle when
      the clock is past 0) and clears the fresh-start flag. */
  lemma FreshActivation(ch: FastChannel, other: FastChannel, baseline: u16, raw: u16, now: nat, permille: u16)
    requires ch.needReset && other.needReset
    requires other.baseline == ch.baseline && other.xDelta == ch.xDelta
    ensures ChannelStep(ch, baseline, raw, true, now, permille) == ChannelStep(other, baseline, raw, true, now, permille)
    ensures now > 0 ==> !ChannelStep(ch, baseline, raw, true, now, permille).1
    ensures !ChannelStep(ch, baseline, raw, true, now, permille).0.needReset
  {
  }

  /** The tracked extrema bracket the cycle's reading. */
  lemma TrackedBrackets(ch: FastChannel, raw: u16, now: nat)
    ensures Tracked(ch, raw, now).zL <= raw - ch.baseline <= Tracked(ch, raw, now).zH
  {
  }

  /** An active channel is withheld exactly when, with both extrema
      recorded, the high one was reached strictly before the low one and
      the signal dropped between them by more than the threshold. */
  lemma WithheldOnDrop(ch: FastChannel, baseline: u16, raw: u16, now: nat, permille: u16)
    ensures var t := Tracked(Rebased(ch, baseline, permille), raw, now);
      ChannelStep(ch, baseline, raw, true, now, permille).1 <==>
        (0 < t.zHt < t.zLt && t.zH - t.zL > t.xDelta)
  {
    TrackedBrackets(Rebased(ch, baseline, permille), raw, now);
  }

  /** A swing above the threshold that is not a drop forgets the low
      extreme and keeps the channel reported. */
  lemma RiseForgetsLow(ch: FastChannel, baseline: u16, raw: u16, now: nat, permille: u16)
    ensures var t := Tracked(Rebased(ch, baseline, permille), raw, now);
      (0 < t.zLt < t.zHt && t.zH - t.zL > t.xDelta) ==>
        (!ChannelStep(ch, baseline, raw, true, now, permille).1
         && ChannelStep(ch, baseline, raw, true, now, permille).0 == t.(zL := INVALID_LOW, zLt := 0))
  {
    TrackedBrackets(Rebased(ch, baseline, permille), raw, now);
  }

  /** Every channel's cycle in one pass, from the channels before it. */
  ghost function Cycle(chs: seq<FastChannel>, base: u16, baselines: seq<u16>, raws: seq<u16>, now: nat, permille: u16)
    : (r: seq<(FastChannel, bool)>)
    requires |chs| == CHANNELS && |baselines| == CHANNELS && |raws| == CHANNELS
    ensures |r| == CHANNELS
    ensures forall i :: 0 <= i < CHANNELS ==> r[i] == ChannelStep(chs[i], baselines[i], raws[i], Bit(base, i), now, permille)
  {
    seq(CHANNELS, i requires 0 <= i < CHANNELS => ChannelStep(chs[i], baselines[i], raws[i], Bit(base, i), now, permille))
  }

  /** The fast trigger's state, static in the firmware: the channels, the
      trigger share, the enable mask and the override mask. */
  class FastTriggerState {
    const ch: array<FastChannel>
    var xPermille: u16
    var enableMask: u16
    var overrideMask: u16

    ghost predicate Valid()
      reads this
    {
      ch.Length == CHANNELS
    }

    /** The statics before `fast_trigger_init`. */
    constructor ()
      ensures Valid() && fresh(ch)
      ensures forall i :: 0 <= i < CHANNELS ==> ch[i] == ZERO_CHANNEL
      ensures xPermille == X_PERMILLE_DEFAULT && enableMask == ALL_SET && overrideMask == 0
    {
      ch := new FastChannel[CHANNELS](_ => ZERO_CHANNEL);
      xPermille := X_PERMILLE_DEFAULT;
      enableMask := ALL_SET;
      overrideMask := 0;
    }

    /** `fast_trigger_init`: each channel takes its baseline and threshold
        and waits for a fresh start; `baselines` holds the sensor's
        baselines. */
    method Init(baselines: seq<u16>)
      requires Valid() && |baselines| == CHANNELS
      modifies ch, this
      ensures Valid() && overrideMask == ALL_SET
      ensures xPermille == old(xPermille) && enableMask == old(enableMask)
      ensures forall i :: 0 <= i < CHANNELS ==>
        ch[i] == old(ch[i]).(baseline := baselines[i], xDelta := XDelta(baselines[i], xPermille), needReset := true)
    {
      var i := 0;
      while i < CHANNELS
        modifies ch
        invariant 0 <= i <= CHANNELS
        invariant forall j :: 0 <= j < i ==>
          ch[j] == old(ch[j]).(baseline := baselines[j], xDelta := XDelta(baselines[j], xPermille), needReset := true)
        invariant forall j :: i <= j < CHANNELS ==> ch[j] == old(ch[j])
      {
        ch[i] := ch[i].(baseline := baselines[i], xDelta := XDelta(baselines[i], xPermille), needReset := true);
        i := i + 1;
      }
      overrideMask := ALL_SET;
    }

    /** `fast_trigger_process`: every channel's cycle with this cycle's
        baselines and filtered readings, and the touch status with the
        withheld channels cleared. No channel is reported that the base
        status does not report. */
    method Process(now: nat, base: u16, baselines: seq<u16>, raws: seq<u16>) returns (out: u16)
      requires Valid() && |baselines| == CHANNELS && |raws| == CHANNELS
      modifies ch, this
      ensures Valid() && xPermille == old(xPermille) && enableMask == old(enableMask)
      ensures forall i :: 0 <= i < CHANNELS ==>
        ch[i] == ChannelStep(old(ch[i]), baselines[i], raws[i], Bit(base, i), now, xPermille).0
      ensures forall i :: 0 <= i < CHANNELS ==>
        (Bit(overrideMask, i) <==> !ChannelStep(old(ch[i]), baselines[i], raws[i], Bit(base, i), now, xPermille).1)
      ensures forall i :: CHANNELS <= i < 16 ==> Bit(overrideMask, i)
      ensures out == And(base, overrideMask)
      ensures forall i :: 0 <= i < CHANNELS ==>
        (Bit(out, i) <==> Bit(base, i) && !ChannelStep(old(ch[i]), baselines[i], raws[i], Bit(base, i), now, xPermille).1)
      ensures forall i :: Bit(out, i) ==> Bit(base, i)
    {
      ghost var steps := Cycle(ch[..], base, baselines, raws, now, xPermille);
      var mask := StepChannels(now, base, baselines, raws, steps);
      assert mask < 0x1_0000 by { Pow2Values(); }
      overrideMask := mask;
      AndBound(base, mask);
      out := And(base, mask);
      forall j ensures Bit(out, j) <==> Bit(base, j) && Bit(mask, j) {
        AndBit(base, mask, j);
      }
    }

    /** The loop of `fast_trigger_process`: each channel's cycle, and the
        override mask with the withheld channels' bits cleared. */
    method StepChannels(now: nat, base: u16, baselines: seq<u16>, raws: seq<u16>, ghost steps: seq<(FastChannel, bool)>)
      returns (mask: nat)
      requires Valid() && |baselines| == CHANNELS && |raws| == CHANNELS && |steps| == CHANNELS
      requires forall i {:trigger steps[i]} :: 0 <= i < CHANNELS ==>
        steps[i] == ChannelStep(ch[i], baselines[i], raws[i], Bit(base, i), now, xPermille)
      modifies ch
      ensures mask < Pow2(16)
      ensures forall i :: 0 <= i < CHANNELS ==> ch[i] == steps[i].0
      ensures forall i :: 0 <= i < CHANNELS ==> (Bit(mask, i) <==> !steps[i].1)
      ensures forall i :: CHANNELS <= i < 16 ==> Bit(mask, i)
    {
      mask := ALL_SET;
      assert ALL_SET < Pow2(16) by { Pow2Values(); }
      AllSetBits();
      var i := 0;
      while i < CHANNELS
        modifies ch
        invariant 0 <= i <= CHANNELS && mask < Pow2(16)
        invariant forall j :: 0 <= j < i ==> ch[j] == steps[j].0
        invariant forall j :: i <= j < CHANNELS ==> ch[j] == old(ch[j])
        invariant forall j :: 0 <= j < i ==> (Bit(mask, j) <==> !steps[j].1)
        invariant forall j :: i <= j < 16 ==> Bit(mask, j)
      {
        var step := ChannelStep(ch[i], baselines[i], raws[i], Bit(base, i), now, xPermille);
        assert step == steps[i];
        ch[i] := step.0;
        mask := MarkChannel(mask, i, step.1);
        i := i + 1;
      }
    }

    /** The override bit of channel `i`: cleared when the channel is
        withheld, set otherwise. */
    method MarkChannel(mask: nat, i: nat, withheld: bool) returns (m: nat)
      requires mask < Pow2(16) && i < CHANNELS
      ensures m < Pow2(16)
      ensures forall j :: Bit(m, j) <==> if j == i then !withheld else Bit(mask, j)
    {
      if withheld {
        m := AndNot(mask, Pow2(i));
        AndNotBound(mask, Pow2(i));
        forall j ensures Bit(m, j) <==> Bit(mask, j) && j != i {
          AndNotBit(mask, Pow2(i), j);
          Pow2Bit(i, j);
        }
      } else {
        m := Or(mask, Pow2(i));
        Pow2Below(i);
        OrBound(mask, Pow2(i), 16);
        forall j ensures Bit(m, j) <==> Bit(mask, j) || j == i {
          OrBit(mask, Pow2(i), j);
          Pow2Bit(i, j);
        }
      }
    }

    /** `fast_trigger_set_x_permille`: the new share, and every channel's
        threshold recomputed from its baseline. */
    method SetXPermille(p: u16)
      requires Valid()
      modifies ch, this
      ensures Valid() && xPermille == p && enableMask == old(enableMask) && overrideMask == old(overrideMask)
      ensures forall i :: 0 <= i < CHANNELS ==> ch[i] == old(ch[i]).(xDelta := XDelta(old(ch[i]).baseline, p))
    {
      xPermille := p;
      var i := 0;
      while i < CHANNELS
        modifies ch
        invariant 0 <= i <= CHANNELS
        invariant forall j :: 0 <= j < i ==> ch[j] == old(ch[j]).(xDelta := XDelta(old(ch[j]).baseline, p))
        invariant forall j :: i <= j < CHANNELS ==> ch[j] == old(ch[j])
      {
        ch[i] := ch[i].(xDelta := XDelta(ch[i].baseline, p));
        i := i + 1;
      }
    }

    /** `fast_trigger_set_enable_mask`; the mask is kept but not consulted
        by the process step. */
    method SetEnableMask(mask: u16)
      modifies this
      ensures enableMask == mask && xPermille == old(xPermille) && overrideMask == old(overrideMask)
    {
      enableMask := mask;
    }
  }

  /** Every bit of the 16-bit all-ones word is set. */
  lemma AllSetBits()
    ensures forall j :: 0 <= j < 16 ==> Bit(ALL_SET, j)
  {
    Pow2Values();
    forall j | 0 <= j < 16
      ensures Bit(ALL_SET, j)
    {
      LowOnes(16, j);
    }
  }

  /** The channel bits lie below bit 16. */
  lemma {:induction false} Pow2Below(i: nat)
    requires i < 16
    ensures Pow2(i) < Pow2(16)
    decreases 16 - i
  {
    if i < 15 {
      Pow2Below(i + 1);
    }
  }
}
