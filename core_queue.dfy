/** The touch-report delay queue of the sensor core (`core.cpp`): a ring of
    `(value, time)` samples written by `TouchQueue_add` and searched by
    `TouchQueue_Timeread` for the sample of a given millisecond.

    `millis_t` is a 32-bit counter, so `time + 1` and `time - 1` wrap
    around modulo 2^32. The clock `millis()` is the parameter `now`. */
module CoreQueue {
  import opened Common
  import opened Bits

  /** One row of `sensor_TouchQueue`: the touch word and its time stamp. */
  datatype Sample = Sample(val: u32, time: u32)

  /** The value `read` returns for a time that lies in the future. */
  const FUTURE: u32 := 0xFFFF_FFFF

  /** 32-bit wrapping `time + 1` and `time - 1`. */
  function Succ(t: u32): (r: u32)
    ensures (r + 0x1_0000_0000 - t) % 0x1_0000_0000 == 1
  {
    if t == 0xFFFF_FFFF then 0 else t + 1
  }

  function Pred(t: u32): (r: u32)
    ensures Succ(r) == t
  {
    if t == 0 then 0xFFFF_FFFF else t - 1
  }

  /** A time stamp one millisecond away from `time`, either way. */
  predicate Adjacent(stamp: u32, time: u32)
  {
    stamp == Succ(time) || stamp == Pred(time)
  }

  /** The slot looked at in step `i` of the search: the search starts one
      slot behind the write index and walks backwards, so the newest sample,
      at the write index itself, is looked at last. */
  function Slot(point: nat, n: nat, i: int): (s: nat)
    requires n >= 1
    ensures s < n
  {
    (point - i - 1) % n
  }

  /** Steps `i`.. of the search, with `nearby` the neighbour value found so
      far (0 when none). */
  function Search(q: seq<Sample>, point: nat, time: u32, i: nat, nearby: u32): u32
    requires |q| >= 1 && i <= |q|
    decreases |q| - i
  {
    if i == |q| then nearby
    else
      var e := q[Slot(point, |q|, i)];
      var nearby' := if nearby == 0 && Adjacent(e.time, time) then e.val else nearby;
      if e.time == time then e.val else Search(q, point, time, i + 1, nearby')
  }

  /** `TouchQueue_Timeread` on the samples `q` with write index `point`. */
  function TimeRead(q: seq<Sample>, point: nat, time: u32, now: u32): u32
    requires |q| >= 1
  {
    if time > now then FUTURE else Search(q, point, time, 0, 0)
  }

  /** The search returns the first sample, in search order, whose stamp is
      exactly `time`. */
  lemma {:induction false} SearchFindsExact(q: seq<Sample>, point: nat, time: u32, i: nat, nearby: u32, k: nat)
    requires |q| >= 1 && i <= k < |q|
    requires q[Slot(point, |q|, k)].time == time
    requires forall j :: i <= j < k ==> q[Slot(point, |q|, j)].time != time
    ensures Search(q, point, time, i, nearby) == q[Slot(point, |q|, k)].val
    decreases k - i
  {
    if i < k {
      var e := q[Slot(point, |q|, i)];
      var nearby' := if nearby == 0 && Adjacent(e.time, time) then e.val else nearby;
      SearchFindsExact(q, point, time, i + 1, nearby', k);
    }
  }

  /** Without an exact stamp the search keeps the first nonzero neighbour
      value it met, and otherwise returns 0 or a neighbour's value. */
  lemma {:induction false} SearchWithoutExact(q: seq<Sample>, point: nat, time: u32, i: nat, nearby: u32)
    requires |q| >= 1 && i <= |q|
    requires forall j :: i <= j < |q| ==> q[Slot(point, |q|, j)].time != time
    ensures nearby != 0 ==> Search(q, point, time, i, nearby) == nearby
    ensures nearby == 0 ==>
      var r := Search(q, point, time, i, nearby);
      r == 0 || exists j :: i <= j < |q| && Adjacent(q[Slot(point, |q|, j)].time, time) && r == q[Slot(point, |q|, j)].val
    decreases |q| - i
  {
    if i < |q| {
      var e := q[Slot(point, |q|, i)];
      var nearby' := if nearby == 0 && Adjacent(e.time, time) then e.val else nearby;
      SearchWithoutExact(q, point, time, i + 1, nearby');
    }
  }

  /** Every slot is looked at in some step of a full search. */
  lemma SlotsCover(point: nat, n: nat, s: nat)
    requires n >= 1 && s < n
    ensures Slot(point, n, (point - s - 1) % n) == s
  {
    var i := (point - s - 1) % n;
    var a := point - s - 1;
    assert a == n * (a / n) + i;
    assert point - i - 1 == n * (a / n) + s;
    DivModUnique(point - i - 1, n, a / n, s);
  }

  /** `TouchQueue_Timeread`'s answer: 0xFFFFFFFF for a future time; the
      value of a sample stamped `time` when there is one; otherwise the
      value of a sample stamped one millisecond away, or 0; and 0 when no
      sample is stamped within a millisecond of `time`. */
  lemma TimeReadMeaning(q: seq<Sample>, point: nat, time: u32, now: u32)
    requires |q| >= 1
    ensures time > now ==> TimeRead(q, point, time, now) == FUTURE
    ensures time <= now && (exists s :: 0 <= s < |q| && q[s].time == time) ==>
      exists s :: 0 <= s < |q| && q[s].time == time && TimeRead(q, point, time, now) == q[s].val
    ensures time <= now && (forall s :: 0 <= s < |q| ==> q[s].time != time) ==>
      var r := TimeRead(q, point, time, now);
      r == 0 || exists s :: 0 <= s < |q| && Adjacent(q[s].time, time) && r == q[s].val
    ensures time <= now && (forall s :: 0 <= s < |q| ==> q[s].time != time && !Adjacent(q[s].time, time)) ==>
      TimeRead(q, point, time, now) == 0
  {
    var n := |q|;
    if time <= now {
      if exists s :: 0 <= s < n && q[s].time == time {
        var s :| 0 <= s < n && q[s].time == time;
        SlotsCover(point, n, s);
        var k := FirstHit(q, point, time, 0, (point - s - 1) % n);
        SearchFindsExact(q, point, time, 0, 0, k);
      } else {
        SearchWithoutExact(q, point, time, 0, 0);
      }
    }
  }

  /** The first step at or after `i`, up to `k`, whose slot is stamped `time`. */
  lemma {:induction false} FirstHit(q: seq<Sample>, point: nat, time: u32, i: nat, k: nat) returns (first: nat)
    requires |q| >= 1 && i <= k < |q| && q[Slot(point, |q|, k)].time == time
    ensures i <= first <= k && q[Slot(point, |q|, first)].time == time
    ensures forall j :: i <= j < first ==> q[Slot(point, |q|, j)].time != time
    decreases k - i
  {
    if q[Slot(point, |q|, i)].time == time {
      first := i;
    } else {
      first := FirstHit(q, point, time, i + 1, k);
    }
  }

  /** `sensor_TouchQueue` and `TouchQueue_point`. */
  class TouchQueue {
    var samples: array<Sample>
    var point: nat

    ghost predicate Valid()
      reads this
    {
      samples.Length >= 2 && point < samples.Length
    }

    /** The zero-initialised queue of `TOUCHQUEUE_SIZE` rows. */
    constructor (size: nat)
      requires size >= 2
      ensures Valid() && fresh(samples) && point == 0
      ensures samples.Length == size && forall s :: 0 <= s < size ==> samples[s] == Sample(0, 0)
    {
      samples := new Sample[size](_ => Sample(0, 0));
      point := 0;
    }

    /** `TouchQueue_add`: advance the write index cyclically and store the
        sample there, overwriting the oldest one. */
    method Add(val: u32, time: u32)
      requires Valid()
      modifies this, samples
      ensures Valid() && samples == old(samples)
      ensures point == (old(point) + 1) % samples.Length
      ensures samples[..] == old(samples[..])[point := Sample(val, time)]
    {
      if point > samples.Length - 2 {
        point := 0;
      } else {
        point := point + 1;
      }
      samples[point] := Sample(val, time);
    }

    /** `TouchQueue_Timeread`, with `millis()` passed as `now`. */
    method TimeReadAt(time: u32, now: u32) returns (r: u32)
      requires Valid()
      ensures r == TimeRead(samples[..], point, time, now)
    {
      if time > now {
        return FUTURE;
      }
      ghost var q := samples[..];
      var n := samples.Length;
      var p := point;
      var nearby: u32 := 0;
      var i := 0;
      while i < n
        invariant i <= n && p < n
        invariant p == if i == 0 then point else Slot(point, n, i - 1)
        invariant Search(q, point, time, i, nearby) == Search(q, point, time, 0, 0)
      {
        NextSlot(point, n, i, p);
        if p > 0 {
          p := p - 1;
        } else {
          p := n - 1;
        }
        assert p == Slot(point, n, i);
        if nearby == 0 && Adjacent(samples[p].time, time) {
          nearby := samples[p].val;
        }
        if samples[p].time == time {
          return samples[p].val;
        }
        i := i + 1;
      }
      return nearby;
    }
  }

  /** The decrement-with-wrap of the search index steps from one slot to
      the next. */
  lemma StepBack(point: nat, n: nat, i: int)
    requires n >= 1
    ensures (if (point - i) % n > 0 then (point - i) % n - 1 else n - 1) == Slot(point, n, i)
  {
    var a := point - i;
    var m := a % n;
    assert a == n * (a / n) + m;
    if m > 0 {
      DivModUnique(a - 1, n, a / n, m - 1);
    } else {
      DivModUnique(a - 1, n, a / n - 1, n - 1);
    }
  }

  /** The search index after step `i - 1` (the write index before the first
      step) moves to the slot of step `i`. */
  lemma NextSlot(point: nat, n: nat, i: nat, p: nat)
    requires point < n && p == if i == 0 then point else Slot(point, n, i - 1)
    ensures (if p > 0 then p - 1 else n - 1) == Slot(point, n, i)
  {
    StepBack(point, n, i);
    if i == 0 {
      DivModUnique(point, n, 0, point);
    }
  }

  /** The search starts one slot behind the write index and ends at the
      write index, where `TouchQueue_add` put the newest sample. */
  lemma NewestLookedAtLast(point: nat, n: nat)
    requires point < n
    ensures Slot(point, n, n - 1) == point
    ensures Slot(point, n, 0) == if point == 0 then n - 1 else point - 1
  {
    DivModUnique(point - n, n, -1, point);
    if point == 0 {
      DivModUnique(-1, n, -1, n - 1);
    } else {
      DivModUnique(point - 1, n, 0, point - 1);
    }
  }

  /** After an add, the write index has the new sample, and a search for
      its time when no other slot carries that stamp finds it. */
  lemma AddThenRead(q: seq<Sample>, point: nat, val: u32, time: u32, now: u32)
    requires |q| >= 2 && point < |q| && time <= now
    requires forall s :: 0 <= s < |q| && s != (point + 1) % |q| ==> q[s].time != time
    ensures TimeRead(q[(point + 1) % |q| := Sample(val, time)], (point + 1) % |q|, time, now) == val
  {
    var p := (point + 1) % |q|;
    var q' := q[p := Sample(val, time)];
    assert q'[p].time == time;
    assert forall s :: 0 <= s < |q'| && s != p ==> q'[s].time != time;
    TimeReadMeaning(q', p, time, now);
  }
}
