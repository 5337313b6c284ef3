/** The scroll bar's page-scroll state: up to 48 lines, the index of the
    first visible line, the number of visible lines and whether scrolling
    is on, plus the `ScrollInfo` mirror the bar is drawn from. */
module ScrollBars {
  import opened Common
  import opened LineConfigs

  /** `setup_page_scroll` keeps at most this many lines. */
  const MAX_PAGE_LINES: nat := 48
  /** The `max_items` every scroll-info update stores. */
  const INFO_MAX_ITEMS: int := 15

  /** `ScrollInfo`. */
  datatype ScrollInfo = ScrollInfo(total: int, visible: int, offset: int, maxItems: int)

  /** `v` clamped into `[0, max(0, total - visible)]`, as `std::max(0,
      std::min(v, max))` does. */
  function ClampStart(v: int, total: int, visible: int): (r: int)
    ensures 0 <= r <= Max(0, total - visible)
    ensures 0 <= v <= Max(0, total - visible) ==> r == v
    ensures v > Max(0, total - visible) ==> r == Max(0, total - visible)
  {
    Max(0, Min(v, Max(0, total - visible)))
  }

  /** Clamping twice is clamping once. */
  lemma ClampIdempotent(v: int, total: int, visible: int)
    ensures ClampStart(ClampStart(v, total, visible), total, visible) == ClampStart(v, total, visible)
  {
  }

  /** `update_scroll_info`'s offset rule. */
  function ClampInfo(i: ScrollInfo): (r: ScrollInfo)
    ensures r.(offset := i.offset) == i
    ensures 0 <= r.offset <= Max(0, i.total - i.visible)
  {
    i.(offset := ClampStart(i.offset, i.total, i.visible))
  }

  /** A line `get_visible_lines` pads with. */
  const PAD_LINE: LineConfig := EMPTY_LINE

  /** The `n` lines from `start` on, padded past the end. */
  function Window(lines: seq<LineConfig>, start: int, n: nat): (w: seq<LineConfig>)
    requires start >= 0
    ensures |w| == n
    ensures forall i :: 0 <= i < n && start + i < |lines| ==> w[i] == lines[start + i]
    ensures forall i :: 0 <= i < n && start + i >= |lines| ==> w[i] == PAD_LINE
  {
    seq(n, i requires 0 <= i < n => if start + i < |lines| then lines[start + i] else PAD_LINE)
  }

  /** The window at the last start shows the last lines of the page. */
  lemma LastWindowShowsEnd(lines: seq<LineConfig>, n: nat)
    requires |lines| >= n
    ensures Window(lines, |lines| - n, n) == lines[|lines| - n..]
  {
  }

  class ScrollBar {
    var allLines: seq<LineConfig>
    var start: int
    var visibleCount: int
    var scrollEnabled: bool
    var info: ScrollInfo

    ghost predicate Valid()
      reads this
    {
      0 <= start && |allLines| <= MAX_PAGE_LINES
    }

    /** The largest start `clamp_display_index` allows. */
    function MaxStart(): int
      reads this
    {
      Max(0, |allLines| - visibleCount)
    }

    /** The scroll info `update_scroll_info_from_page_state` derives. */
    function StateInfo(): ScrollInfo
      reads this
    {
      ScrollInfo(|allLines|, visibleCount, start, INFO_MAX_ITEMS)
    }

    constructor ()
      ensures Valid() && allLines == [] && start == 0 && visibleCount == 4 && !scrollEnabled
      ensures info == ScrollInfo(0, 0, 0, INFO_MAX_ITEMS)
    {
      allLines := [];
      start := 0;
      visibleCount := 4;
      scrollEnabled := false;
      info := ScrollInfo(0, 0, 0, INFO_MAX_ITEMS);
    }

    /** `update_scroll_info`: the info is taken over with its offset
        clamped. */
    method UpdateScrollInfo(i: ScrollInfo)
      modifies this
      ensures info == ClampInfo(i)
      ensures allLines == old(allLines) && start == old(start) && visibleCount == old(visibleCount)
      ensures scrollEnabled == old(scrollEnabled)
    {
      info := i;
      var maxOffset := Max(0, info.total - info.visible);
      info := info.(offset := Max(0, Min(info.offset, maxOffset)));
    }

    /** `update_scroll_info_from_page_state`. */
    method UpdateInfoFromState()
      modifies this
      ensures info == StateInfo()
      ensures allLines == old(allLines) && start == old(start) && visibleCount == old(visibleCount)
      ensures scrollEnabled == old(scrollEnabled)
    {
      info := ScrollInfo(|allLines|, visibleCount, start, INFO_MAX_ITEMS);
    }

    /** `setup_page_scroll`: the first 48 lines are kept and scrolling is on
        exactly when they outnumber the visible lines (a negative count,
        compared as `size_t`, never is). The start index is kept as it
        was. */
    method SetupPageScroll(lines: seq<LineConfig>, visible: int)
      requires Valid()
      modifies this
      ensures Valid()
      ensures allLines == lines[..Min(|lines|, MAX_PAGE_LINES)]
      ensures visibleCount == visible && start == old(start)
      ensures scrollEnabled == (visible >= 0 && |allLines| > visible)
      ensures info == StateInfo()
    {
      var maxLines := Min(|lines|, MAX_PAGE_LINES);
      allLines := [];
      var i := 0;
      while i < maxLines
        invariant 0 <= i <= maxLines && allLines == lines[..i] && start == old(start)
      {
        allLines := allLines + [lines[i]];
        i := i + 1;
      }
      visibleCount := visible;
      scrollEnabled := visible >= 0 && |allLines| > visible;
      UpdateInfoFromState();
    }

    /** `clamp_display_index`. */
    method ClampDisplayIndex()
      modifies this
      ensures start == ClampStart(old(start), |allLines|, visibleCount)
      ensures allLines == old(allLines) && visibleCount == old(visibleCount)
      ensures scrollEnabled == old(scrollEnabled) && info == old(info)
    {
      var maxStart := Max(0, |allLines| - visibleCount);
      start := Max(0, Min(start, maxStart));
    }

    /** `scroll_up`: refused when scrolling is off or at the top; otherwise
        one line up, clamped. */
    method ScrollUp() returns (ok: bool)
      requires Valid()
      modifies this
      ensures Valid()
      ensures ok <==> old(scrollEnabled) && old(start) > 0
      ensures start == if ok then ClampStart(old(start) - 1, |allLines|, visibleCount) else old(start)
      ensures ok && old(start) <= MaxStart() + 1 ==> start == old(start) - 1
      ensures allLines == old(allLines) && visibleCount == old(visibleCount) && scrollEnabled == old(scrollEnabled)
      ensures info == if ok then StateInfo() else old(info)
    {
      if !scrollEnabled || start <= 0 {
        return false;
      }
      start := start - 1;
      ClampDisplayIndex();
      UpdateInfoFromState();
      ok := true;
    }

    /** `scroll_down`: refused when scrolling is off or at the last start;
        otherwise one line down. */
    method ScrollDown() returns (ok: bool)
      requires Valid()
      modifies this
      ensures Valid()
      ensures ok <==> old(scrollEnabled) && old(start) < |allLines| - visibleCount
      ensures start == if ok then old(start) + 1 else old(start)
      ensures ok ==> start <= MaxStart()
      ensures allLines == old(allLines) && visibleCount == old(visibleCount) && scrollEnabled == old(scrollEnabled)
      ensures info == if ok then StateInfo() else old(info)
    {
      if !scrollEnabled {
        return false;
      }
      var maxStart := |allLines| - visibleCount;
      if start >= maxStart {
        return false;
      }
      start := start + 1;
      ClampDisplayIndex();
      UpdateInfoFromState();
      ok := true;
    }

    /** `set_display_start_index`. */
    method SetDisplayStartIndex(index: int)
      requires Valid()
      modifies this
      ensures Valid()
      ensures start == ClampStart(index, |allLines|, visibleCount)
      ensures allLines == old(allLines) && visibleCount == old(visibleCount) && scrollEnabled == old(scrollEnabled)
      ensures info == StateInfo()
    {
      start := index;
      ClampDisplayIndex();
      UpdateInfoFromState();
    }

    /** `get_visible_lines`: exactly `visible_line_count` lines, the page's
        lines from the start index on and empty lines after its end. A
        negative count would make the padding loop run forever, compared
        as `size_t`. */
    method GetVisibleLines() returns (v: seq<LineConfig>)
      requires Valid() && visibleCount >= 0
      ensures v == Window(allLines, start, visibleCount)
    {
      v := [];
      var endIndex := Min(start + visibleCount, |allLines|);
      var i := start;
      while i < endIndex
        invariant start <= i && (i <= endIndex || i == start)
        invariant |v| == i - start && forall j :: 0 <= j < |v| ==> v[j] == allLines[start + j]
      {
        v := v + [allLines[i]];
        i := i + 1;
      }
      while |v| < visibleCount
        invariant |v| <= visibleCount
        invariant forall j :: 0 <= j < |v| && start + j < |allLines| ==> v[j] == allLines[start + j]
        invariant forall j :: 0 <= j < |v| && start + j >= |allLines| ==> v[j] == PAD_LINE
        invariant |v| >= Max(0, endIndex - start)
      {
        v := v + [PAD_LINE];
      }
    }

    /** `should_show`: the bar is drawn exactly when the clamped offset has
        somewhere to go. */
    function ShouldShow(): (b: bool)
      reads this
      ensures b <==> ClampStart(info.total - info.visible, info.total, info.visible) > 0
    {
      info.total > info.visible
    }
  }
}
