/** The touch-area logic of the sensor core (`core.cpp`): the two rings of
    neighbouring areas, reading and clearing one area in the pair of trigger
    words, the self-correction of touches on joined pads, and the summary of
    the 24 pressure channels.

    Areas are numbered from 1: A1-A8 are 1-8, B1-B8 9-16, C1-C2 17-18,
    D1-D8 19-26 and E1-E8 27-34; 0 is "no area". Area `p` is bit `p - 1` of
    the first word when `p < 26` and bit `p - 26` of the second otherwise. */
module CoreRegions {
  import opened Common
  import opened Bits

  /** `ring_ad`: the outer ring, A and D areas interleaved, the first entry
      repeated at the end (the entries are listed in `RingTables`). */
  const RING_AD: seq<nat> := RingTable(0)
  /** `ring_be`: the inner ring, B and E areas interleaved. */
  const RING_BE: seq<nat> := RingTable(8)

  /** A ring of 17 entries in the closed form of `RingEntry`. */
  function RingTable(o: nat): (ring: seq<nat>)
    ensures |ring| == 17 && forall i :: 0 <= i < 17 ==> ring[i] == RingEntry(o, i)
  {
    seq(17, (i: nat) => RingEntry(o, i))
  }

  predicate OnRingAD(point: nat) { (0 < point < 9) || (18 < point < 27) }
  predicate OnRingBE(point: nat) { (8 < point < 17) || (26 < point < 35) }

  /** The first index in `from..16` where the ring holds `point`, or 17:
      the search loop of `check_near_region`. */
  function RingIndex(ring: seq<nat>, point: nat, from: nat): (i: nat)
    requires |ring| == 17 && 1 <= from <= 17
    ensures from <= i <= 17
    decreases 17 - from
  {
    if from == 17 then 17 else if ring[from] == point then from else RingIndex(ring, point, from + 1)
  }

  /** The indices `check_near_region` reads for a point found at ring index
      `i`, AS WRITTEN: `i - 1` and `i + 1`, with `i` running up to 16. */
  function NearIndicesAsWritten(ring: seq<nat>, point: nat): (ij: (nat, nat))
    requires |ring| == 17
    ensures RingIndex(ring, point, 1) < 17 ==> ij.1 <= 17
  {
    var i := RingIndex(ring, point, 1);
    (i - 1, i + 1)
  }

  /** D1 (19) and E1 (27) are found only at index 16, the repeated last
      entry, so their right neighbour is read from index 17 of a 17-entry
      table: one past its end. */
  lemma NearRegionReadsPastRing()
    ensures NearIndicesAsWritten(RING_AD, 19).1 == |RING_AD|
    ensures NearIndicesAsWritten(RING_BE, 27).1 == |RING_BE|
  {
    RingSearch(RING_AD, 0, 19);
    RingSearch(RING_BE, 8, 27);
  }

  /** The rings in closed form: `o` is 0 for the A/D ring and 8 for the B/E
      ring; odd indices hold A (or B) areas in order, even indices D (or E)
      areas, and indices 0 and 16 both hold D1 (or E1). */
  function RingEntry(o: nat, i: nat): nat
  {
    if i % 2 == 1 then o + (i + 1) / 2
    else if i == 0 || i == 16 then 19 + o
    else 19 + o + i / 2
  }

  predicate OnRing(o: nat, point: nat)
  {
    (o < point <= o + 8) || (19 + o <= point <= 26 + o)
  }

  /** Where the search of `check_near_region` finds an area of ring `o`. */
  function RingPos(o: nat, point: nat): int
  {
    if point <= o + 8 then 2 * (point - o) - 1
    else if point == 19 + o then 16
    else 2 * (point - 19 - o)
  }

  /** The two tables entry by entry. */
  lemma RingTables()
    ensures RING_AD == [19, 1, 20, 2, 21, 3, 22, 4, 23, 5, 24, 6, 25, 7, 26, 8, 19]
    ensures RING_BE == [27, 9, 28, 10, 29, 11, 30, 12, 31, 13, 32, 14, 33, 15, 34, 16, 27]
  {
  }

  /** An area of the ring sits at `RingPos` and at no earlier index from 1. */
  lemma RingPosFacts(o: nat, point: nat)
    requires OnRing(o, point)
    ensures 1 <= RingPos(o, point) <= 16 && RingEntry(o, RingPos(o, point)) == point
    ensures forall j :: 1 <= j < RingPos(o, point) ==> RingEntry(o, j) != point
  {
  }

  /** Each index 1..16 holds an area of the ring found at that index. */
  lemma EntryPos(o: nat, i: nat)
    requires 1 <= i <= 16
    ensures OnRing(o, RingEntry(o, i)) && RingPos(o, RingEntry(o, i)) == i
  {
  }

  lemma {:induction false} RingSearchFrom(ring: seq<nat>, o: nat, point: nat, from: nat)
    requires |ring| == 17 && forall i :: 0 <= i < 17 ==> ring[i] == RingEntry(o, i)
    requires OnRing(o, point) && 1 <= from <= RingPos(o, point)
    ensures RingIndex(ring, point, from) == RingPos(o, point)
    decreases 17 - from
  {
    RingPosFacts(o, point);
    if from < RingPos(o, point) {
      RingSearchFrom(ring, o, point, from + 1);
    }
  }

  lemma RingSearch(ring: seq<nat>, o: nat, point: nat)
    requires (ring == RING_AD && o == 0) || (ring == RING_BE && o == 8)
    requires OnRing(o, point)
    ensures RingIndex(ring, point, 1) == RingPos(o, point)
  {
    RingPosFacts(o, point);
    RingSearchFrom(ring, o, point, 1);
  }

  /** The two neighbours on `ring` of the area at index `i` (1..16); the
      right neighbour of index 16 is index 1, the entry after the repeat. */
  function RingNeighbours(ring: seq<nat>, i: nat): (lr: (nat, nat))
    requires |ring| == 17 && 1 <= i <= 16
  {
    (ring[i - 1], if i == 16 then ring[1] else ring[i + 1])
  }

  /** `check_near_region`, with the right neighbour of the last ring entry
      taken from the start of the ring: the areas on either side of `point`
      on its ring, or (0, 0) for an area on no ring. */
  function CheckNearRegion(point: nat): (lr: (nat, nat))
    ensures !OnRingAD(point) && !OnRingBE(point) ==> lr == (0, 0)
  {
    if OnRingAD(point) && RingIndex(RING_AD, point, 1) < 17 then RingNeighbours(RING_AD, RingIndex(RING_AD, point, 1))
    else if OnRingBE(point) && RingIndex(RING_BE, point, 1) < 17 then RingNeighbours(RING_BE, RingIndex(RING_BE, point, 1))
    else (0, 0)
  }

  /** The neighbours of an area of ring `o` in closed form. */
  lemma NearValue(o: nat, point: nat)
    requires (o == 0 || o == 8) && OnRing(o, point)
    ensures var i := RingPos(o, point);
            CheckNearRegion(point) == (RingEntry(o, i - 1), RingEntry(o, if i == 16 then 1 else i + 1))
  {
    if o == 0 {
      RingSearch(RING_AD, 0, point);
    } else {
      RingSearch(RING_BE, 8, point);
    }
  }

  /** The neighbours of a ring area name it back: the right neighbour's
      left neighbour and the left neighbour's right neighbour are the area. */
  lemma NeighboursSymmetric(point: nat)
    requires OnRingAD(point) || OnRingBE(point)
    ensures CheckNearRegion(CheckNearRegion(point).1).0 == point
    ensures CheckNearRegion(CheckNearRegion(point).0).1 == point
  {
    var o := if OnRingAD(point) then 0 else 8;
    var k := RingPos(o, point);
    assert 1 <= k <= 16 && RingEntry(o, k) == point by { RingPosFacts(o, point); }
    RightThenLeftAt(o, k);
    LeftThenRightAt(o, k);
  }

  /** The ring index before `k`, wrapping from 1 to 16. */
  function RingPrev(k: nat): nat
    requires 1 <= k <= 16
  {
    if k == 1 then 16 else k - 1
  }

  /** The ring index after `k`, wrapping from 16 to 1. */
  function RingNext(k: nat): nat
    requires 1 <= k <= 16
  {
    if k == 16 then 1 else k + 1
  }

  /** The right neighbour's left neighbour at ring index `k`. */
  lemma RightThenLeftAt(o: nat, k: nat)
    requires (o == 0 || o == 8) && 1 <= k <= 16
    ensures CheckNearRegion(CheckNearRegion(RingEntry(o, k)).1).0 == RingEntry(o, k)
  {
    var kr := RingNext(k);
    assert CheckNearRegion(RingEntry(o, k)).1 == RingEntry(o, kr) by { NearOfEntry(o, k); }
    assert CheckNearRegion(RingEntry(o, kr)).0 == RingEntry(o, RingPrev(kr)) by { NearOfEntry(o, kr); }
    assert RingPrev(kr) == k;
  }

  /** The left neighbour's right neighbour at ring index `k`. */
  lemma LeftThenRightAt(o: nat, k: nat)
    requires (o == 0 || o == 8) && 1 <= k <= 16
    ensures CheckNearRegion(CheckNearRegion(RingEntry(o, k)).0).1 == RingEntry(o, k)
  {
    var kl := RingPrev(k);
    assert CheckNearRegion(RingEntry(o, k)).0 == RingEntry(o, kl) by { NearOfEntry(o, k); }
    assert CheckNearRegion(RingEntry(o, kl)).1 == RingEntry(o, RingNext(kl)) by { NearOfEntry(o, kl); }
    assert RingNext(kl) == k;
  }

  /** The neighbours of the area at ring index `k`: the entries before and
      after it on its ring. */
  lemma NearOfEntry(o: nat, k: nat)
    requires (o == 0 || o == 8) && 1 <= k <= 16
    ensures CheckNearRegion(RingEntry(o, k)) == (RingEntry(o, RingPrev(k)), RingEntry(o, RingNext(k)))
  {
    EntryPos(o, k);
    NearValue(o, RingEntry(o, k));
    if k == 1 {
      assert RingEntry(o, 0) == RingEntry(o, 16);
    }
  }

  /** The neighbours of an area are on its ring. */
  lemma NeighboursOnRing(point: nat)
    requires OnRingAD(point) || OnRingBE(point)
    ensures OnRingAD(point) ==> OnRingAD(CheckNearRegion(point).0) && OnRingAD(CheckNearRegion(point).1)
    ensures OnRingBE(point) ==> OnRingBE(CheckNearRegion(point).0) && OnRingBE(CheckNearRegion(point).1)
  {
    var o := if OnRingAD(point) then 0 else 8;
    NearValue(o, point);
    RingPosFacts(o, point);
    var i := RingPos(o, point);
    EntryPos(o, if i == 1 then 16 else i - 1);
    EntryPos(o, if i == 16 then 1 else i + 1);
    assert RingEntry(o, i - 1) == RingEntry(o, if i == 1 then 16 else i - 1);
  }

  /** `_check_triggle`: area `point` is set in the trigger words; area 0,
      a pad bound to no area, counts as set. */
  predicate Triggered(w: seq<u32>, point: nat)
    requires |w| == 2
  {
    point == 0 || (if point < 26 then Bit(w[0], point - 1) else Bit(w[1], point - 26))
  }

  /** The trigger words after `del_triggle(point)`: the bit of `point`
      cleared, nothing done for 0. */
  function Cleared(w: seq<u32>, point: nat): (c: seq<u32>)
    requires |w| == 2
    ensures |c| == 2
  {
    if point == 0 then w
    else if point <= 25 then
      AndNotBound(w[0], Pow2(point - 1));
      [AndNot(w[0], Pow2(point - 1)), w[1]]
    else
      AndNotBound(w[1], Pow2(point - 26));
      [w[0], AndNot(w[1], Pow2(point - 26))]
  }

  /** Clearing an area clears that area and no other. */
  lemma ClearedOnlyTarget(w: seq<u32>, point: nat, q: nat)
    requires |w| == 2 && point > 0 && q > 0
    ensures Triggered(Cleared(w, point), q) <==> Triggered(w, q) && q != point
  {
    if point <= 25 && q < 26 {
      AndNotBit(w[0], Pow2(point - 1), q - 1);
      Pow2Bit(point - 1, q - 1);
    } else if point > 25 && q >= 26 {
      AndNotBit(w[1], Pow2(point - 26), q - 26);
      Pow2Bit(point - 26, q - 26);
    }
  }

  /** `a` has no bit that `b` lacks. */
  ghost predicate SubMask(a: nat, b: nat)
  {
    forall i :: Bit(a, i) ==> Bit(b, i)
  }

  /** Clearing only removes bits. */
  lemma ClearedSubMask(w: seq<u32>, point: nat)
    requires |w| == 2
    ensures SubMask(Cleared(w, point)[0], w[0]) && SubMask(Cleared(w, point)[1], w[1])
  {
    if 0 < point <= 25 {
      forall i ensures Bit(AndNot(w[0], Pow2(point - 1)), i) ==> Bit(w[0], i) {
        AndNotBit(w[0], Pow2(point - 1), i);
      }
    } else if point > 25 {
      forall i ensures Bit(AndNot(w[1], Pow2(point - 26)), i) ==> Bit(w[1], i) {
        AndNotBit(w[1], Pow2(point - 26), i);
      }
    }
  }

  /** `del_triggle` on the two words `edit` points to. */
  method DelTriggle(edit: array<u32>, point: byte)
    requires edit.Length == 2
    modifies edit
    ensures edit[..] == Cleared(old(edit[..]), point)
  {
    if point == 0 {
      return;
    }
    if point <= 25 {
      AndNotBound(edit[0], Pow2(point - 1));
      edit[0] := AndNot(edit[0], Pow2(point - 1));
    } else {
      AndNotBound(edit[1], Pow2(point - 26));
      edit[1] := AndNot(edit[1], Pow2(point - 26));
    }
  }

  /** The other area bound to the same pad as `bind` in `mai_map`, scanning
      from entry `i`; 0 when none. */
  function BindPartner(maiMap: seq<(nat, nat)>, bind: nat, i: nat): (other: nat)
    requires i <= |maiMap|
    ensures other == 0 || exists j :: i <= j < |maiMap| && (maiMap[j] == (bind, other) || maiMap[j] == (other, bind))
    decreases |maiMap| - i
  {
    if i == |maiMap| then 0
    else if maiMap[i].0 == bind then maiMap[i].1
    else if maiMap[i].1 == bind then maiMap[i].0
    else BindPartner(maiMap, bind, i + 1)
  }

  /** `get_another_bind_pad`. */
  method GetAnotherBindPad(maiMap: seq<(nat, nat)>, bind: nat) returns (other: nat)
    ensures other == BindPartner(maiMap, bind, 0)
  {
    var i := 0;
    while i < |maiMap|
      invariant i <= |maiMap|
      invariant BindPartner(maiMap, bind, i) == BindPartner(maiMap, bind, 0)
    {
      if maiMap[i].0 == bind {
        return maiMap[i].1;
      }
      if maiMap[i].1 == bind {
        return maiMap[i].0;
      }
      i := i + 1;
    }
    return 0;
  }

  /** The far neighbour of the bound pad `pad` on the side away from area `i`. */
  function FarSide(pad: nat, i: nat): nat
  {
    var farNear := CheckNearRegion(pad);
    if farNear.0 == i then farNear.1 else farNear.0
  }

  /** One step of `auto_region_detect` for area `i` on the words `w`. */
  function DetectStep(w: seq<u32>, maiMap: seq<(nat, nat)>, i: nat): (c: seq<u32>)
    requires |w| == 2
    ensures |c| == 2
  {
    if !Triggered(w, i) then w
    else
      var near := CheckNearRegion(i);
      var pad := BindPartner(maiMap, i, 0);
      if near.0 == pad then
        if Triggered(w, near.1) && !Triggered(w, FarSide(pad, i)) then Cleared(w, near.0) else w
      else if near.1 == pad then
        if Triggered(w, near.0) && !Triggered(w, FarSide(pad, i)) then Cleared(w, near.1) else w
      else w
  }

  /** `auto_region_detect`: areas 1 to 34 in turn, each step seeing the
      corrections of the earlier ones. */
  function DetectFrom(w: seq<u32>, maiMap: seq<(nat, nat)>, i: nat): (c: seq<u32>)
    requires |w| == 2 && 1 <= i <= 35
    ensures |c| == 2
    decreases 35 - i
  {
    if i == 35 then w else DetectFrom(DetectStep(w, maiMap, i), maiMap, i + 1)
  }

  /** The correction only removes touches: its words are sub-masks of the input. */
  lemma {:induction false} DetectFromSubMask(w: seq<u32>, maiMap: seq<(nat, nat)>, i: nat)
    requires |w| == 2 && 1 <= i <= 35
    ensures SubMask(DetectFrom(w, maiMap, i)[0], w[0]) && SubMask(DetectFrom(w, maiMap, i)[1], w[1])
    decreases 35 - i
  {
    if i < 35 {
      var s := DetectStep(w, maiMap, i);
      var near := CheckNearRegion(i);
      ClearedSubMask(w, near.0);
      ClearedSubMask(w, near.1);
      assert SubMask(s[0], w[0]) && SubMask(s[1], w[1]);
      DetectFromSubMask(s, maiMap, i + 1);
    }
  }

  /** A touch on an area that is not bound next to another area on its ring
      is never removed. */
  lemma {:induction false} DetectStepKeeps(w: seq<u32>, maiMap: seq<(nat, nat)>, i: nat, q: nat)
    requires |w| == 2 && q > 0 && Triggered(w, q)
    requires q != CheckNearRegion(i).0 && q != CheckNearRegion(i).1
    ensures Triggered(DetectStep(w, maiMap, i), q)
  {
    var near := CheckNearRegion(i);
    if near.0 > 0 {
      ClearedOnlyTarget(w, near.0, q);
    }
    if near.1 > 0 {
      ClearedOnlyTarget(w, near.1, q);
    }
  }

  /** `auto_region_detect` on the two words `input` points to. */
  method AutoRegionDetect(input: array<u32>, maiMap: seq<(nat, nat)>)
    requires input.Length == 2
    modifies input
    ensures input[..] == DetectFrom(old(input[..]), maiMap, 1)
    ensures SubMask(input[0], old(input[0])) && SubMask(input[1], old(input[1]))
  {
    var w := input[..];
    var i := 1;
    while i <= 34
      invariant 1 <= i <= 35 && |w| == 2
      invariant input[..] == old(input[..])
      invariant DetectFrom(w, maiMap, i) == DetectFrom(old(input[..]), maiMap, 1)
    {
      if Triggered(w, i) {
        var near := CheckNearRegion(i);
        var pad := GetAnotherBindPad(maiMap, i);
        if near.0 == pad {
          if Triggered(w, near.1) {
            var farNear := CheckNearRegion(pad);
            if !Triggered(w, if farNear.0 == i then farNear.1 else farNear.0) {
              w := Cleared(w, near.0);
            }
          }
        } else if near.1 == pad {
          if Triggered(w, near.0) {
            var farNear := CheckNearRegion(pad);
            if !Triggered(w, if farNear.0 == i then farNear.1 else farNear.0) {
              w := Cleared(w, near.1);
            }
          }
        }
      }
      i := i + 1;
    }
    DetectFromSubMask(old(input[..]), maiMap, 1);
    input[0], input[1] := w[0], w[1];
    assert input[..] == w;
  }

  /** `_touch_read`: channel `t` of a sensor word is pressed unless its two
      bits, in place, exceed the channel's pressure threshold. */
  predicate TouchRead(get: nat, t: nat, threshold: nat)
  {
    !(And(get, Shl(3, 2 * t)) > threshold)
  }

  /** Channel `k` of the summary: channels 0-11 of the first sensor, then
      channels 0-11 of the second, each with its own threshold. */
  predicate ChannelPressed(get0: u32, get1: u32, thresholds: seq<nat>, k: nat)
    requires |thresholds| == 24 && k < 24
  {
    if k < 12 then TouchRead(get0, k, thresholds[k]) else TouchRead(get1, k - 12, thresholds[k])
  }

  /** OR-ing in bit `cc` above a value of `cc` bits adds exactly that bit. */
  lemma SetNextBit(prev: nat, cc: nat)
    requires prev < Pow2(cc)
    ensures Or(prev, Shl(1, cc)) < Pow2(cc + 1)
    ensures forall k :: Bit(Or(prev, Shl(1, cc)), k) <==> Bit(prev, k) || k == cc
  {
    ShiftValues(1, cc);
    OrComm(prev, Pow2(cc));
    OrShifted(1, prev, cc);
    forall k ensures Bit(Or(prev, Pow2(cc)), k) <==> (Bit(prev, k) || k == cc) {
      OrBit(prev, Pow2(cc), k);
      Pow2Bit(cc, k);
    }
  }

  /** All 24 channels of the summary, in bit order. */
  ghost function Channels(get0: u32, get1: u32, thresholds: seq<nat>): (ch: seq<bool>)
    requires |thresholds| == 24
    ensures |ch| == 24 && forall k :: 0 <= k < 24 ==> ch[k] == ChannelPressed(get0, get1, thresholds, k)
  {
    seq(24, (k: nat) requires k < 24 => ChannelPressed(get0, get1, thresholds, k))
  }

  /** OR-ing channel `cc` in as bit `cc` extends the summary by that channel. */
  lemma SummaryStep(prev: nat, next: nat, cc: nat, ch: seq<bool>, pressed: bool)
    requires cc < |ch| && prev < Pow2(cc) && pressed == ch[cc]
    requires forall k :: 0 <= k < cc ==> (Bit(prev, k) <==> ch[k])
    requires next == Or(prev, Shl(if pressed then 1 else 0, cc))
    ensures next < Pow2(cc + 1)
    ensures forall k :: 0 <= k < cc + 1 ==> (Bit(next, k) <==> ch[k])
  {
    HighBitsClear(prev, cc, cc);
    if pressed {
      SetNextBit(prev, cc);
    } else {
      ShlZero(cc);
      OrZero(prev);
    }
  }

  /** The number of pressure channels, twelve per sensor. */
  const CHANNELS: nat := 24

  /** `send_touch_info`, with `touch_pressure_read` passed as the table
      `thresholds`: bit `k` of the summary is channel `k`, and there is no
      bit above 23. */
  method SendTouchInfo(get0: u32, get1: u32, thresholds: seq<nat>) returns (r: u32)
    requires |thresholds| == 24
    ensures r < Pow2(CHANNELS)
    ensures forall k :: 0 <= k < 24 ==> (Bit(r, k) <==> ChannelPressed(get0, get1, thresholds, k))
  {
    var call: nat := 0;
    var cc := 0;
    while cc < 12
      invariant cc <= 12 && call < Pow2(cc)
      invariant forall k :: 0 <= k < cc ==> (Bit(call, k) <==> ChannelPressed(get0, get1, thresholds, k))
    {
      var pressed := TouchRead(get0, cc, thresholds[cc]);
      call := AddChannel(call, cc, get0, get1, thresholds, pressed);
      cc := cc + 1;
    }
    var aa := 0;
    while aa < 12
      invariant aa <= 12 && cc == 12 + aa && call < Pow2(cc)
      invariant forall k :: 0 <= k < cc ==> (Bit(call, k) <==> ChannelPressed(get0, get1, thresholds, k))
    {
      var pressed := TouchRead(get1, aa, thresholds[12 + aa]);
      call := AddChannel(call, cc, get0, get1, thresholds, pressed);
      aa := aa + 1;
      cc := cc + 1;
    }
    assert And(call, Pow2(CHANNELS) - 1) == call && Pow2(CHANNELS) == 0x100_0000 by {
      MaskKeeps(call, CHANNELS);
      Pow2Of24();
    }
    r := And(call, Pow2(CHANNELS) - 1);
  }

  /** `call |= touch_read(..) << cc`: the summary gains channel `cc` as bit `cc`. */
  method AddChannel(call: nat, cc: nat, get0: u32, get1: u32, thresholds: seq<nat>, pressed: bool) returns (next: nat)
    requires |thresholds| == 24 && cc < 24 && call < Pow2(cc)
    requires pressed == ChannelPressed(get0, get1, thresholds, cc)
    requires forall k :: 0 <= k < cc ==> (Bit(call, k) <==> ChannelPressed(get0, get1, thresholds, k))
    ensures next < Pow2(cc + 1)
    ensures forall k :: 0 <= k < cc + 1 ==> (Bit(next, k) <==> ChannelPressed(get0, get1, thresholds, k))
  {
    ghost var ch := Channels(get0, get1, thresholds);
    next := Or(call, Shl(if pressed then 1 else 0, cc));
    SummaryStep(call, next, cc, ch, pressed);
  }
}
