/** The construct-based page engine: settings constructs that keep their
    target inside its bounds, construct pages with a selection and cyclic
    navigation, the page stack used for back navigation, and the menu
    interaction system that drives page templates from the joystick. */
module UiConstructs {
  import opened Common
  import opened Bits
  import opened Text
  import opened PageTypes
  import opened LineConfigs
  import opened PageTemplates

  // ---------------------------------------------------------------------
  // Settings constructs

  /** `std::max(lo, std::min(hi, v))`; with `lo > hi` the result is `lo`. */
  function SettingClamp(v: int, lo: int, hi: int): (r: int)
    ensures lo <= hi ==> lo <= r <= hi
    ensures lo <= v <= hi ==> r == v
    ensures v < lo || lo > hi ==> r == lo
    ensures lo <= hi < v ==> r == hi
  {
    Max(lo, Min(hi, v))
  }

  /** A `SettingsConstruct`: its text, the integer its target pointer
      designates (when there is one), its bounds and whether it has a
      callback. */
  class SettingsConstruct {
    const text: string
    /** Whether `target_variable_` is non-null. */
    const hasTarget: bool
    /** The integer `target_variable_` points at. */
    var target: int
    const minValue: int
    const maxValue: int
    const hasCallback: bool

    /** With a target and sensible bounds, the target lies within them. */
    ghost predicate Valid()
      reads this
    {
      hasTarget && minValue <= maxValue ==> minValue <= target <= maxValue
    }

    /** Both constructors: a target is clamped at once. */
    constructor (text: string, hasTarget: bool, initial: int, minValue: int, maxValue: int, hasCallback: bool)
      ensures Valid()
      ensures this.text == text && this.hasTarget == hasTarget && this.hasCallback == hasCallback
      ensures this.minValue == minValue && this.maxValue == maxValue
      ensures target == if hasTarget then SettingClamp(initial, minValue, maxValue) else initial
    {
      this.text := text;
      this.hasTarget := hasTarget;
      this.minValue := minValue;
      this.maxValue := maxValue;
      this.hasCallback := hasCallback;
      target := initial;
      new;
      if hasTarget {
        ClampValue();
      }
    }

    /** `clamp_value`. */
    method ClampValue()
      modifies this
      ensures Valid()
      ensures target == if hasTarget then SettingClamp(old(target), minValue, maxValue) else old(target)
    {
      if hasTarget {
        target := Max(minValue, Min(maxValue, target));
      }
    }

    /** `adjust_value`: the target moves by `delta` and is clamped. */
    method AdjustValue(delta: int)
      modifies this
      ensures Valid()
      ensures target == if hasTarget then SettingClamp(old(target) + delta, minValue, maxValue) else old(target)
    {
      if hasTarget {
        target := target + delta;
        ClampValue();
      }
    }

    /** `set_value`: the target takes the value, clamped. */
    method SetValue(value: int)
      modifies this
      ensures Valid()
      ensures target == if hasTarget then SettingClamp(value, minValue, maxValue) else old(target)
    {
      if hasTarget {
        target := value;
        ClampValue();
      }
    }

    /** `get_current_value`: 0 without a target. */
    method GetCurrentValue() returns (v: int)
      requires Valid()
      ensures v == if hasTarget then target else 0
      ensures hasTarget && minValue <= maxValue ==> minValue <= v <= maxValue
    {
      v := if hasTarget then target else 0;
    }

    /** `get_display_text`: the text, followed by `: ` and the value when
        there is a target. */
    function DisplayText(): (s: string)
      reads this
      ensures !hasTarget ==> s == text
      ensures hasTarget ==> (|s| == |text| + 2 + |IntToString(target)| && s[..|text|] == text &&
                             s[|text|..|text| + 2] == ": " && s[|text| + 2..] == IntToString(target))
    {
      if hasTarget then text + ": " + IntToString(target) else text
    }

    /** `handle_interaction`: the callback, if any, receives the current
        value, and the interaction is always handled. */
    method HandleInteraction() returns (handled: bool, notified: Option<int>)
      requires Valid()
      ensures handled
      ensures notified == if hasCallback then Some(if hasTarget then target else 0) else None
    {
      var v := GetCurrentValue();
      notified := if hasCallback then Some(v) else None;
      handled := true;
    }
  }

  /** The displayed value of a non-negative target reads back as the
      target. */
  lemma DisplayedValueReadsBack(c: SettingsConstruct)
    requires c.hasTarget && c.target >= 0
    ensures var s := c.DisplayText(); DigitsValue(s[|c.text| + 2..]) == c.target
  {
    NatToStringValue(c.target);
  }

  // ---------------------------------------------------------------------
  // Constructs and their pages

  datatype ConstructKind = PageJump | Button | Settings | TextOnly

  /** A construct on a page: its kind, its text, its selected flag and
      whether a callback is attached. */
  datatype Construct = Construct(kind: ConstructKind, text: string, selected: bool, hasCallback: bool)

  /** `is_interactive`: everything but text. */
  predicate IsInteractive(c: Construct)
  {
    c.kind != TextOnly
  }

  predicate NoInteractive(cs: seq<Construct>)
  {
    forall i :: 0 <= i < |cs| ==> !IsInteractive(cs[i])
  }

  /** The index of the first interactive construct, or -1. */
  function FirstInteractive(cs: seq<Construct>): (r: int)
    ensures r == -1 <==> NoInteractive(cs)
    ensures r != -1 ==> (0 <= r < |cs| && IsInteractive(cs[r]) &&
                         forall j :: 0 <= j < r ==> !IsInteractive(cs[j]))
  {
    if cs == [] then -1
    else if IsInteractive(cs[0]) then 0
    else
      var r := FirstInteractive(cs[1..]);
      assert forall j :: 1 <= j < |cs| ==> cs[j] == cs[1..][j - 1];
      if r == -1 then -1 else r + 1
  }

  /** The first interactive index is the only index with its defining
      property. */
  lemma FirstInteractiveUnique(cs: seq<Construct>, r: int)
    requires 0 <= r < |cs| && IsInteractive(cs[r]) && forall j :: 0 <= j < r ==> !IsInteractive(cs[j])
    ensures FirstInteractive(cs) == r
  {
  }

  /** `update_selection`'s effect: the construct at `k` is selected and
      every other one is not. */
  function MarkSelected(cs: seq<Construct>, k: int): (r: seq<Construct>)
    ensures |r| == |cs|
    ensures forall i :: 0 <= i < |cs| ==> (r[i].selected <==> i == k)
    ensures forall i :: 0 <= i < |cs| ==> r[i].(selected := cs[i].selected) == cs[i]
  {
    seq(|cs|, i requires 0 <= i < |cs| => cs[i].(selected := i == k))
  }

  /** Marking the selection changes no construct's kind. */
  lemma MarkSelectedKeepsKinds(cs: seq<Construct>, k: int)
    ensures NoInteractive(MarkSelected(cs, k)) <==> NoInteractive(cs)
    ensures FirstInteractive(MarkSelected(cs, k)) == FirstInteractive(cs)
  {
    var m := MarkSelected(cs, k);
    assert forall i :: 0 <= i < |cs| ==> (IsInteractive(m[i]) <==> IsInteractive(cs[i]));
    if !NoInteractive(cs) {
      FirstInteractiveUnique(m, FirstInteractive(cs));
    }
  }

  // ---------------------------------------------------------------------
  // The cyclic scan of `find_next_interactive`

  function StepOf(forward: bool): int
  {
    if forward then 1 else -1
  }

  /** The construct `i` steps from `start` round a page of `size`. */
  function Cyc(start: int, i: int, step: int, size: int): (r: int)
    requires size > 0
    ensures 0 <= r < size
  {
    (start + i * step) % size
  }

  /** The index as written, `(start_index + i * step + size) % size` with
      C's remainder: negative when the sum is. */
  function CycAsWritten(start: int, i: int, step: int, size: int): int
    requires size > 0
  {
    CRem(start + i * step + size, size)
  }

  /** Where the index as written is a valid index, it is the cyclic one. */
  lemma CycAsWrittenAgrees(start: int, i: int, step: int, size: int)
    requires size > 0 && 0 <= CycAsWritten(start, i, step, size) < size
    ensures CycAsWritten(start, i, step, size) == Cyc(start, i, step, size)
  {
    var x := start + i * step;
    var r := CycAsWritten(start, i, step, size);
    if x + size >= 0 {
      DivModUnique(x + size, size, (x + size) / size, r);
      DivModUnique(x, size, (x + size) / size - 1, r);
    } else {
      var q := (-(x + size)) / size;
      assert -(x + size) == size * q + (-(x + size)) % size;
      assert r == 0;
      DivModUnique(x, size, -q - 1, 0);
    }
  }

  /** Every index of the page is met by the scan, forwards or
      backwards. */
  lemma CycOnto(start: int, forward: bool, size: int, j: int)
    requires size > 0 && 0 <= j < size
    ensures var step := StepOf(forward); var k := (step * (j - start)) % size;
      0 <= k < size && Cyc(start, k, step, size) == j
  {
    var step := StepOf(forward);
    var m := step * (j - start);
    var k := m % size;
    var q := m / size;
    assert m == size * q + k;
    assert start + k * step == j - size * (q * step) by {
      assert step * step == 1;
      calc {
        start + k * step;
        start + (m - size * q) * step;
        start + step * step * (j - start) - size * q * step;
        j - size * (q * step);
      }
    }
    DivModUnique(start + k * step, size, -(q * step), j);
  }

  /** The scan from step `i` on: the first interactive construct met, or
      `sel` when there is none. */
  function ScanFrom(cs: seq<Construct>, start: int, step: int, i: nat, sel: int): (r: int)
    requires cs != []
    ensures r == sel || (0 <= r < |cs| && IsInteractive(cs[r]))
    decreases |cs| - i
  {
    if i >= |cs| then sel
    else if IsInteractive(cs[Cyc(start, i, step, |cs|)]) then Cyc(start, i, step, |cs|)
    else ScanFrom(cs, start, step, i + 1, sel)
  }

  /** If some step from `i` on meets an interactive construct, the scan
      returns the first such one. */
  lemma {:induction false} ScanFromFinds(cs: seq<Construct>, start: int, step: int, i: nat, sel: int, k: nat)
    requires cs != [] && i <= k < |cs| && IsInteractive(cs[Cyc(start, k, step, |cs|)])
    ensures var r := ScanFrom(cs, start, step, i, sel);
      0 <= r < |cs| && IsInteractive(cs[r]) &&
      exists f :: i <= f <= k && r == Cyc(start, f, step, |cs|) &&
        forall g :: i <= g < f ==> !IsInteractive(cs[Cyc(start, g, step, |cs|)])
    decreases |cs| - i
  {
    if IsInteractive(cs[Cyc(start, i, step, |cs|)]) {
      assert ScanFrom(cs, start, step, i, sel) == Cyc(start, i, step, |cs|);
    } else {
      ScanFromFinds(cs, start, step, i + 1, sel, k);
      var r := ScanFrom(cs, start, step, i + 1, sel);
      var f :| i + 1 <= f <= k && r == Cyc(start, f, step, |cs|) &&
        forall g :: i + 1 <= g < f ==> !IsInteractive(cs[Cyc(start, g, step, |cs|)]);
      assert forall g :: i <= g < f ==> !IsInteractive(cs[Cyc(start, g, step, |cs|)]);
    }
  }

  /** `find_next_interactive`: -1 on an empty page, otherwise the first
      interactive construct met from `start` stepping in the given
      direction, or the current selection when there is none. */
  function FindNext(cs: seq<Construct>, start: int, forward: bool, sel: int): (r: int)
    ensures cs == [] ==> r == -1
    ensures cs != [] ==> r == sel || (0 <= r < |cs| && IsInteractive(cs[r]))
  {
    if cs == [] then -1 else ScanFrom(cs, start, StepOf(forward), 0, sel)
  }

  /** On a page with an interactive construct the scan always finds one. */
  lemma FindNextFindsAny(cs: seq<Construct>, start: int, forward: bool, sel: int, j: int)
    requires 0 <= j < |cs| && IsInteractive(cs[j])
    ensures var r := FindNext(cs, start, forward, sel); 0 <= r < |cs| && IsInteractive(cs[r])
  {
    CycOnto(start, forward, |cs|, j);
    var step := StepOf(forward);
    ScanFromFinds(cs, start, step, 0, sel, (step * (j - start)) % |cs|);
  }

  /** Nothing interactive: the scan keeps the selection. */
  lemma FindNextKeeps(cs: seq<Construct>, start: int, forward: bool, sel: int)
    requires cs != [] && NoInteractive(cs)
    ensures FindNext(cs, start, forward, sel) == sel
  {
  }

  /** The scan as written: `None` where it would read outside the page. */
  function ScanAsWritten(cs: seq<Construct>, start: int, step: int, i: nat, sel: int): (r: Option<int>)
    requires cs != []
    decreases |cs| - i
  {
    if i >= |cs| then Some(sel)
    else
      var idx := CycAsWritten(start, i, step, |cs|);
      if !(0 <= idx < |cs|) then None
      else if IsInteractive(cs[idx]) then Some(idx)
      else ScanAsWritten(cs, start, step, i + 1, sel)
  }

  /** Where the scan as written stays on the page it agrees with the
      cyclic scan. */
  lemma {:induction false} ScanAsWrittenAgrees(cs: seq<Construct>, start: int, step: int, i: nat, sel: int)
    requires cs != [] && ScanAsWritten(cs, start, step, i, sel).Some?
    ensures ScanAsWritten(cs, start, step, i, sel).value == ScanFrom(cs, start, step, i, sel)
    decreases |cs| - i
  {
    if i < |cs| {
      CycAsWrittenAgrees(start, i, step, |cs|);
      if !IsInteractive(cs[Cyc(start, i, step, |cs|)]) {
        ScanAsWrittenAgrees(cs, start, step, i + 1, sel);
      }
    }
  }

  /** `navigate_up` on a page of two text constructs, where nothing is
      selected: the scan as written reaches index -1. */
  lemma NavigateUpReadsBeforeStart()
    ensures var t := Construct(TextOnly, "", false, false);
      ScanAsWritten([t, t], -1 - 1, StepOf(false), 0, -1) == None
  {
    var t := Construct(TextOnly, "", false, false);
    assert CycAsWritten(-2, 0, -1, 2) == 0;
    assert CycAsWritten(-2, 1, -1, 2) == -1;
  }

  /** The selection `remove_construct` settles on after erasing: the last
      construct when the old index is past the end, and the next
      interactive one when it lands on a text construct. */
  function ReselectAfterRemove(rest: seq<Construct>, s: int): (r: int)
    requires s >= -1
    ensures -1 <= r < |rest|
    ensures s == -1 || rest == [] ==> r == -1
  {
    var s1 := if s >= |rest| then |rest| - 1 else s;
    if s1 >= 0 && !IsInteractive(rest[s1]) then FindNext(rest, s1, true, s1) else s1
  }

  /** After a removal a selection stays on an interactive construct while
      there is one. */
  lemma ReselectLandsOnInteractive(rest: seq<Construct>, s: int)
    requires s >= 0 && !NoInteractive(rest)
    ensures var r := ReselectAfterRemove(rest, s); 0 <= r && IsInteractive(rest[r])
  {
    var s1 := if s >= |rest| then |rest| - 1 else s;
    var j :| 0 <= j < |rest| && IsInteractive(rest[j]);
    FindNextFindsAny(rest, s1, true, s1, j);
  }

  /** `ConstructPage`: its title, its constructs and the selected index
      (-1 when nothing is selected). */
  class ConstructPage {
    const title: string
    var constructs: seq<Construct>
    var selectedIndex: int

    /** The selection is -1 or a construct; it is -1 only when no
        construct is interactive. */
    ghost predicate Valid()
      reads this
    {
      -1 <= selectedIndex < |constructs| && (selectedIndex == -1 ==> NoInteractive(constructs))
    }

    constructor (title: string)
      ensures Valid() && this.title == title && constructs == [] && selectedIndex == -1
    {
      this.title := title;
      constructs := [];
      selectedIndex := -1;
    }

    /** `update_selection`. */
    method UpdateSelection()
      requires Valid()
      modifies this
      ensures Valid()
      ensures constructs == MarkSelected(old(constructs), selectedIndex) && selectedIndex == old(selectedIndex)
    {
      var i := 0;
      ghost var cs := constructs;
      while i < |constructs|
        invariant 0 <= i <= |constructs| == |cs| && selectedIndex == old(selectedIndex) && cs == old(constructs)
        invariant forall j :: 0 <= j < i ==> constructs[j] == cs[j].(selected := j == selectedIndex)
        invariant forall j :: i <= j < |cs| ==> constructs[j] == cs[j]
      {
        constructs := constructs[i := constructs[i].(selected := i == selectedIndex)];
        i := i + 1;
      }
      MarkSelectedKeepsKinds(cs, selectedIndex);
    }

    /** `add_construct`: a null construct is ignored; the first interactive
        construct added while nothing is selected becomes the selection. */
    method AddConstruct(c: Option<Construct>)
      requires Valid()
      modifies this
      ensures Valid()
      ensures c.None? ==> constructs == old(constructs) && selectedIndex == old(selectedIndex)
      ensures c.Some? && old(selectedIndex) == -1 && IsInteractive(c.value) ==>
        selectedIndex == |old(constructs)| && constructs == MarkSelected(old(constructs) + [c.value], selectedIndex)
      ensures c.Some? && !(old(selectedIndex) == -1 && IsInteractive(c.value)) ==>
        selectedIndex == old(selectedIndex) && constructs == old(constructs) + [c.value]
      ensures old(selectedIndex) == FirstInteractive(old(constructs)) ==> selectedIndex == FirstInteractive(constructs)
    {
      if c.None? {
        return;
      }
      ghost var before := constructs;
      constructs := constructs + [c.value];
      assert forall j :: 0 <= j < |before| ==> constructs[j] == before[j];
      if selectedIndex == -1 && IsInteractive(c.value) {
        selectedIndex := |constructs| - 1;
        FirstInteractiveUnique(constructs, selectedIndex);
        UpdateSelection();
      } else if old(selectedIndex) == FirstInteractive(before) && selectedIndex != -1 {
        FirstInteractiveUnique(constructs, selectedIndex);
      }
    }

    /** `remove_construct`: an index past the end is ignored; otherwise
        the construct goes and the selection is repaired. */
    method RemoveConstruct(index: int)
      requires Valid()
      modifies this
      ensures Valid()
      ensures !(0 <= index < |old(constructs)|) ==> constructs == old(constructs) && selectedIndex == old(selectedIndex)
      ensures 0 <= index < |old(constructs)| ==>
        var rest := old(constructs)[..index] + old(constructs)[index + 1..];
        selectedIndex == ReselectAfterRemove(rest, old(selectedIndex)) && constructs == MarkSelected(rest, selectedIndex)
    {
      if !(0 <= index < |constructs|) {
        return;
      }
      constructs := constructs[..index] + constructs[index + 1..];
      if selectedIndex >= |constructs| {
        selectedIndex := |constructs| - 1;
      }
      if selectedIndex >= 0 && !IsInteractive(constructs[selectedIndex]) {
        selectedIndex := FindNextInteractive(selectedIndex, true);
      }
      assert selectedIndex == ReselectAfterRemove(constructs, old(selectedIndex));
      UpdateSelection();
    }

    /** `clear_constructs`. */
    method ClearConstructs()
      modifies this
      ensures Valid() && constructs == [] && selectedIndex == -1
    {
      constructs := [];
      selectedIndex := -1;
    }

    /** `get_construct`: null past the end. */
    method GetConstruct(index: int) returns (c: Option<Construct>)
      ensures c.Some? <==> 0 <= index < |constructs|
      ensures c.Some? ==> c.value == constructs[index]
    {
      if 0 <= index < |constructs| {
        return Some(constructs[index]);
      }
      return None;
    }

    /** `has_interactive_elements`. */
    method HasInteractiveElements() returns (b: bool)
      ensures b <==> !NoInteractive(constructs)
      ensures b <==> FirstInteractive(constructs) != -1
    {
      var i := 0;
      while i < |constructs|
        invariant 0 <= i <= |constructs|
        invariant forall j :: 0 <= j < i ==> !IsInteractive(constructs[j])
      {
        if IsInteractive(constructs[i]) {
          return true;
        }
        i := i + 1;
      }
      return false;
    }

    /** `get_interactive_indices`: the indices of the interactive
        constructs, in increasing order. */
    method GetInteractiveIndices() returns (r: seq<int>)
      ensures forall a, b :: 0 <= a < b < |r| ==> r[a] < r[b]
      ensures forall a :: 0 <= a < |r| ==> 0 <= r[a] < |constructs| && IsInteractive(constructs[r[a]])
      ensures forall j :: 0 <= j < |constructs| && IsInteractive(constructs[j]) ==> j in r
      ensures r != [] ==> r[0] == FirstInteractive(constructs)
    {
      r := [];
      var i := 0;
      while i < |constructs|
        invariant 0 <= i <= |constructs|
        invariant forall a, b :: 0 <= a < b < |r| ==> r[a] < r[b]
        invariant forall a :: 0 <= a < |r| ==> 0 <= r[a] < i && IsInteractive(constructs[r[a]])
        invariant forall j :: 0 <= j < i && IsInteractive(constructs[j]) ==> j in r
      {
        if IsInteractive(constructs[i]) {
          r := r + [i];
        }
        i := i + 1;
      }
      if r != [] {
        assert forall j :: 0 <= j < r[0] ==> !IsInteractive(constructs[j]);
        FirstInteractiveUnique(constructs, r[0]);
      }
    }

    /** `set_selected_index`: only an interactive construct can be
        selected. */
    method SetSelectedIndex(index: int)
      requires Valid()
      modifies this
      ensures Valid()
      ensures 0 <= index < |old(constructs)| && IsInteractive(old(constructs)[index]) ==>
        selectedIndex == index && constructs == MarkSelected(old(constructs), index)
      ensures !(0 <= index < |old(constructs)| && IsInteractive(old(constructs)[index])) ==>
        selectedIndex == old(selectedIndex) && constructs == old(constructs)
    {
      if 0 <= index < |constructs| && IsInteractive(constructs[index]) {
        selectedIndex := index;
        UpdateSelection();
      }
    }

    /** `find_next_interactive`, with the cyclic index taken modulo the
        page size. */
    method FindNextInteractive(startIndex: int, forward: bool) returns (r: int)
      ensures r == FindNext(constructs, startIndex, forward, selectedIndex)
    {
      if constructs == [] {
        return -1;
      }
      var size := |constructs|;
      var step := if forward then 1 else -1;
      var i := 0;
      while i < size
        invariant 0 <= i <= size
        invariant ScanFrom(constructs, startIndex, step, i, selectedIndex) ==
                  ScanFrom(constructs, startIndex, step, 0, selectedIndex)
      {
        var index := (startIndex + i * step) % size;
        if IsInteractive(constructs[index]) {
          return index;
        }
        i := i + 1;
      }
      return selectedIndex;
    }

    /** Moves the selection to `n` when it differs from the current one. */
    method MoveTo(n: int) returns (moved: bool)
      requires Valid() && (n == selectedIndex || (0 <= n < |constructs| && IsInteractive(constructs[n])))
      modifies this
      ensures Valid()
      ensures moved == (n != old(selectedIndex))
      ensures selectedIndex == n
      ensures constructs == if moved then MarkSelected(old(constructs), n) else old(constructs)
    {
      if n != selectedIndex {
        selectedIndex := n;
        UpdateSelection();
        return true;
      }
      return false;
    }

    /** `navigate_up`: to the previous interactive construct, cyclically. */
    method NavigateUp() returns (moved: bool)
      requires Valid()
      modifies this
      ensures Valid()
      ensures var n := FindNext(old(constructs), old(selectedIndex) - 1, false, old(selectedIndex));
        moved == (old(constructs) != [] && n != old(selectedIndex)) &&
        selectedIndex == (if moved then n else old(selectedIndex)) &&
        constructs == (if moved then MarkSelected(old(constructs), n) else old(constructs))
    {
      if constructs == [] {
        return false;
      }
      var n := FindNextInteractive(selectedIndex - 1, false);
      moved := MoveTo(n);
    }

    /** `navigate_down`: to the next interactive construct, cyclically. */
    method NavigateDown() returns (moved: bool)
      requires Valid()
      modifies this
      ensures Valid()
      ensures var n := FindNext(old(constructs), old(selectedIndex) + 1, true, old(selectedIndex));
        moved == (old(constructs) != [] && n != old(selectedIndex)) &&
        selectedIndex == (if moved then n else old(selectedIndex)) &&
        constructs == (if moved then MarkSelected(old(constructs), n) else old(constructs))
    {
      if constructs == [] {
        return false;
      }
      var n := FindNextInteractive(selectedIndex + 1, true);
      moved := MoveTo(n);
    }

    /** `navigate_left`: as `navigate_up`, but only from a selection past
        the first construct. */
    method NavigateLeft() returns (moved: bool)
      requires Valid()
      modifies this
      ensures Valid()
      ensures var n := FindNext(old(constructs), old(selectedIndex) - 1, false, old(selectedIndex));
        moved == (old(selectedIndex) > 0 && n != old(selectedIndex)) &&
        selectedIndex == (if moved then n else old(selectedIndex)) &&
        constructs == (if moved then MarkSelected(old(constructs), n) else old(constructs))
    {
      if selectedIndex > 0 {
        var n := FindNextInteractive(selectedIndex - 1, false);
        moved := MoveTo(n);
      } else {
        moved := false;
      }
    }

    /** `navigate_right`: as `navigate_down`, but only from a selection
        before the last construct. */
    method NavigateRight() returns (moved: bool)
      requires Valid()
      modifies this
      ensures Valid()
      ensures var n := FindNext(old(constructs), old(selectedIndex) + 1, true, old(selectedIndex));
        moved == (old(selectedIndex) < |old(constructs)| - 1 && n != old(selectedIndex)) &&
        selectedIndex == (if moved then n else old(selectedIndex)) &&
        constructs == (if moved then MarkSelected(old(constructs), n) else old(constructs))
    {
      if selectedIndex < |constructs| - 1 {
        var n := FindNextInteractive(selectedIndex + 1, true);
        moved := MoveTo(n);
      } else {
        moved := false;
      }
    }

    /** `handle_confirm`: the selected interactive construct's interaction;
        a page jump reports whether the page switch was accepted. */
    method HandleConfirm(jumpAccepted: bool) returns (handled: bool)
      ensures handled <==> 0 <= selectedIndex < |constructs| && Interaction(constructs[selectedIndex], jumpAccepted)
    {
      if 0 <= selectedIndex < |constructs| {
        var c := constructs[selectedIndex];
        if IsInteractive(c) {
          return Interaction(c, jumpAccepted);
        }
      }
      return false;
    }
  }

  /** `handle_interaction` of each construct kind: a page jump reports the
      page switch, a button whether it has a callback, a setting always
      succeeds, text never does. */
  function Interaction(c: Construct, jumpAccepted: bool): (ok: bool)
    ensures ok ==> IsInteractive(c)
  {
    match c.kind
    case PageJump => jumpAccepted
    case Button => c.hasCallback
    case Settings => true
    case TextOnly => false
  }

  /** Moving down from any construct of a page that has an interactive one
      lands on an interactive construct. */
  lemma NavigationLandsOnInteractive(cs: seq<Construct>, sel: int, forward: bool)
    requires !NoInteractive(cs)
    ensures var n := FindNext(cs, sel + StepOf(forward), forward, sel); 0 <= n < |cs| && IsInteractive(cs[n])
  {
    var j :| 0 <= j < |cs| && IsInteractive(cs[j]);
    FindNextFindsAny(cs, sel + StepOf(forward), forward, sel, j);
  }

  // ---------------------------------------------------------------------
  // The page stack

  /** What `pop_page` returns and leaves: the last page pushed, or the
      main page when there is none. */
  function PopOf(s: seq<UIPage>, main: UIPage): (r: (UIPage, seq<UIPage>))
    ensures s == [] ==> r == (main, [])
    ensures s != [] ==> r.1 + [r.0] == s
  {
    if s == [] then (main, []) else (s[|s| - 1], s[..|s| - 1])
  }

  /** Popping what was just pushed gives it back and restores the
      stack. */
  lemma PushPopLifo(s: seq<UIPage>, p: UIPage, main: UIPage)
    ensures PopOf(s + [p], main) == (p, s)
  {
    assert (s + [p])[..|s|] == s;
  }

  /** `handle_back_navigation`'s target and the stack it leaves: off the
      main page and without interactive content it pops; otherwise it
      stays on the current page. */
  function BackTarget(s: seq<UIPage>, main: UIPage, hasInteractive: bool): (r: (UIPage, seq<UIPage>))
    ensures PopOf(s, main).0 == main || hasInteractive ==> r == (PopOf(s, main).0, s)
    ensures PopOf(s, main).0 != main && !hasInteractive ==> r == PopOf(s, main) && |r.1| == |s| - 1
  {
    var current := PopOf(s, main).0;
    if current == main then (if !hasInteractive then (main, s) else (current, s))
    else if !hasInteractive then PopOf(s, main)
    else (current, s)
  }

  /** The `PageNavigationManager` of the construct engine: a stack of page
      identifiers over a main page. */
  class PageStack {
    var stack: seq<UIPage>
    var mainPage: UIPage

    constructor ()
      ensures stack == [] && mainPage == MAIN
    {
      stack := [];
      mainPage := MAIN;
    }

    method PushPage(p: UIPage)
      modifies this
      ensures stack == old(stack) + [p] && mainPage == old(mainPage)
    {
      stack := stack + [p];
    }

    method PopPage() returns (p: UIPage)
      modifies this
      ensures (p, stack) == PopOf(old(stack), mainPage) && mainPage == old(mainPage)
    {
      if stack != [] {
        p := stack[|stack| - 1];
        stack := stack[..|stack| - 1];
        return;
      }
      return mainPage;
    }

    /** `get_current_page`: the page a pop would return. */
    function CurrentPage(): (p: UIPage)
      reads this
      ensures p == PopOf(stack, mainPage).0
    {
      if stack == [] then mainPage else stack[|stack| - 1]
    }

    /** `get_previous_page`: the page that is current after a pop. */
    function PreviousPage(): (p: UIPage)
      reads this
      ensures var s := PopOf(stack, mainPage).1; p == PopOf(s, mainPage).0
    {
      if |stack| > 1 then stack[|stack| - 2] else mainPage
    }

    function CanGoBack(): (b: bool)
      reads this
      ensures b <==> PopOf(stack, mainPage).1 != stack
    {
      stack != []
    }

    method HandleBackNavigation(hasInteractive: bool) returns (p: UIPage)
      modifies this
      ensures (p, stack) == BackTarget(old(stack), mainPage, hasInteractive) && mainPage == old(mainPage)
    {
      var current := CurrentPage();
      if current == mainPage {
        if !hasInteractive {
          return mainPage;
        }
        return current;
      } else {
        if !hasInteractive {
          p := PopPage();
          return;
        }
        return current;
      }
    }

    method ClearStack()
      modifies this
      ensures stack == [] && mainPage == old(mainPage)
    {
      stack := [];
    }

    method SetMainPage(p: UIPage)
      modifies this
      ensures mainPage == p && stack == old(stack)
    {
      mainPage := p;
    }
  }

  // ---------------------------------------------------------------------
  // The menu interaction system

  /** The menu number of line `sel`: the number of menu items before it. */
  function MenuNumber(lines: seq<LineConfig>, sel: int): (m: nat)
    ensures m <= CountInteractive(lines)
  {
    if 0 <= sel <= |lines| then
      assert lines == lines[..sel] + lines[sel..];
      CountAppend(lines[..sel], lines[sel..]);
      CountInteractive(lines[..sel])
    else 0
  }

  /** The menu number `handle_joystick_down` passes on as written: the
      selected line index plus one, modulo the item count. */
  function JoystickDownAsWritten(sel: int, count: int): int
    requires count > 0
  {
    CRem(sel + 1, count)
  }

  /** A title line over two buttons, with the second button selected: as
      written the joystick asks for menu item 1 again, so the selection
      never returns to the first button, where the next item is 0. */
  lemma JoystickDownStuck()
    ensures var lines := [TextLine("Menu", COLOR_TEXT_WHITE, Left), ButtonOf("A", COLOR_TEXT_WHITE, Left),
                          ButtonOf("B", COLOR_TEXT_WHITE, Left)];
      CountInteractive(lines) == 2 && IsNth(lines, 2, 1) && IsNth(lines, 1, 0) &&
      JoystickDownAsWritten(2, 2) == 1 && CRem(MenuNumber(lines, 2) + 1, 2) == 0
  {
    var lines := [TextLine("Menu", COLOR_TEXT_WHITE, Left), ButtonOf("A", COLOR_TEXT_WHITE, Left),
                  ButtonOf("B", COLOR_TEXT_WHITE, Left)];
    assert lines[..1][..0] == [];
    assert lines[..2][..1] == lines[..1];
    assert lines[..3] == lines;
    assert CountInteractive(lines[..1]) == 0;
    assert CountInteractive(lines[..2]) == 1;
    assert CountInteractive(lines) == 2;
  }

  /** The menu number `handle_joystick_up` passes on as written: the
      selected line index minus one, plus the item count, modulo the item
      count. */
  function JoystickUpAsWritten(sel: int, count: int): int
    requires count > 0
  {
    CRem(sel - 1 + count, count)
  }

  /** A title line over two buttons, with the first button selected: as
      written the joystick asks for menu item 0, the first button again,
      where the previous item, cyclically, is 1. */
  lemma JoystickUpStuck()
    ensures var lines := [TextLine("Menu", COLOR_TEXT_WHITE, Left), ButtonOf("A", COLOR_TEXT_WHITE, Left),
                          ButtonOf("B", COLOR_TEXT_WHITE, Left)];
      CountInteractive(lines) == 2 && IsNth(lines, 1, 0) && IsNth(lines, 2, 1) &&
      JoystickUpAsWritten(1, 2) == 0 && CRem(MenuNumber(lines, 1) - 1 + 2, 2) == 1
  {
    var lines := [TextLine("Menu", COLOR_TEXT_WHITE, Left), ButtonOf("A", COLOR_TEXT_WHITE, Left),
                  ButtonOf("B", COLOR_TEXT_WHITE, Left)];
    assert lines[..1][..0] == [];
    assert lines[..2][..1] == lines[..1];
    assert lines[..3] == lines;
    assert CountInteractive(lines[..1]) == 0;
    assert CountInteractive(lines[..2]) == 1;
    assert CountInteractive(lines) == 2;
  }

  /** `MenuInteractionSystem`: page templates by identifier, the current
      one, and the page stack it pushes on a switch. */
  class MenuInteractionSystem {
    var pages: map<UIPage, PageTemplate>
    var currentPageId: UIPage
    const nav: PageStack

    constructor (nav: PageStack)
      ensures pages == map[] && currentPageId == MAIN && this.nav == nav
    {
      pages := map[];
      currentPageId := MAIN;
      this.nav := nav;
    }

    /** `register_page`: a null page is ignored. */
    method RegisterPage(id: UIPage, page: PageTemplate?)
      modifies this
      ensures pages == if page != null then old(pages)[id := page] else old(pages)
      ensures currentPageId == old(currentPageId)
    {
      if page != null {
        pages := pages[id := page];
      }
    }

    method UnregisterPage(id: UIPage)
      modifies this
      ensures pages == old(pages) - {id} && id !in pages
      ensures currentPageId == old(currentPageId)
    {
      pages := pages - {id};
    }

    /** `get_page`: null for an unregistered identifier. */
    method GetPage(id: UIPage) returns (p: PageTemplate?)
      ensures p != null <==> id in pages
      ensures p != null ==> p == pages[id]
    {
      if id in pages {
        return pages[id];
      }
      return null;
    }

    /** `switch_to_page`: only to a registered page; the old page is
        pushed. */
    method SwitchToPage(id: UIPage) returns (ok: bool)
      modifies this, nav
      ensures ok <==> id in old(pages)
      ensures ok ==> currentPageId == id && nav.stack == old(nav.stack) + [old(currentPageId)]
      ensures !ok ==> currentPageId == old(currentPageId) && nav.stack == old(nav.stack)
      ensures pages == old(pages) && nav.mainPage == old(nav.mainPage)
    {
      var page := GetPage(id);
      if page != null {
        nav.PushPage(currentPageId);
        currentPageId := id;
        return true;
      }
      return false;
    }

    /** `handle_joystick_up`, moving from the selected line's menu number:
        the previous menu item, cyclically. */
    method HandleJoystickUp() returns (handled: bool)
      modifies if currentPageId in pages then {pages[currentPageId]} else {}
      ensures handled <==> currentPageId in pages && CountInteractive(pages[currentPageId].allLines) > 0
      ensures handled && !old(pages[currentPageId].scrollEnabled) ==>
        var lines := old(pages[currentPageId].allLines);
        var count := CountInteractive(lines);
        count > 0 && IsNth(lines, pages[currentPageId].selectedIndex,
              CRem(MenuNumber(lines, old(pages[currentPageId].selectedIndex)) - 1 + count, count))
    {
      if currentPageId !in pages {
        return false;
      }
      var page := pages[currentPageId];
      var count := page.GetMenuItemCount();
      if count > 0 {
        var m := MenuNumber(page.allLines, page.selectedIndex);
        var target := CRem(m - 1 + count, count);
        assert 0 <= target < CountInteractive(page.allLines);
        page.SetSelectedIndex(target);
        if !page.scrollEnabled {
          SelectionKeepsMenu(old(page.allLines), old(page.selectedIndex), page.selectedIndex);
        }
        return true;
      }
      return false;
    }

    /** `handle_joystick_down`, moving from the selected line's menu
        number: the next menu item, cyclically. */
    method HandleJoystickDown() returns (handled: bool)
      modifies if currentPageId in pages then {pages[currentPageId]} else {}
      ensures handled <==> currentPageId in pages && CountInteractive(pages[currentPageId].allLines) > 0
      ensures handled && !old(pages[currentPageId].scrollEnabled) ==>
        var lines := old(pages[currentPageId].allLines);
        var count := CountInteractive(lines);
        count > 0 && IsNth(lines, pages[currentPageId].selectedIndex, CRem(MenuNumber(lines, old(pages[currentPageId].selectedIndex)) + 1, count))
    {
      if currentPageId !in pages {
        return false;
      }
      var page := pages[currentPageId];
      var count := page.GetMenuItemCount();
      if count > 0 {
        var m := MenuNumber(page.allLines, page.selectedIndex);
        var target := CRem(m + 1, count);
        assert 0 <= target < CountInteractive(page.allLines);
        page.SetSelectedIndex(target);
        if !page.scrollEnabled {
          SelectionKeepsMenu(old(page.allLines), old(page.selectedIndex), page.selectedIndex);
        }
        return true;
      }
      return false;
    }

    /** `handle_joystick_left`, `_right` and `_confirm` do nothing here. */
    method HandleJoystickSideways() returns (handled: bool)
      ensures !handled
    {
      return false;
    }

    /** `handle_back_button`: the page stack decides the target, told
        whether the current page has menu items. */
    method HandleBackButton() returns (changed: bool)
      modifies this, nav
      ensures var has := old(currentPageId in pages && CountInteractive(pages[currentPageId].allLines) > 0);
        var t := BackTarget(old(nav.stack), old(nav.mainPage), has);
        currentPageId == t.0 && nav.stack == t.1 && changed == (t.0 != old(currentPageId))
      ensures pages == old(pages)
    {
      var has := false;
      if currentPageId in pages {
        var count := pages[currentPageId].GetMenuItemCount();
        has := count > 0;
      }
      var target := nav.HandleBackNavigation(has);
      if target != currentPageId {
        currentPageId := target;
        return true;
      }
      return false;
    }
  }
}
