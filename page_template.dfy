/** The page template: a title, the visible lines `lines` it draws, the
    full list `allLines`, the selected menu line, and a scroll bar that
    takes over when the list outgrows the visible lines. */
module PageTemplates {
  import opened Common
  import opened LineConfigs
  import opened ScrollBars

  const TITLE_Y: int := 2
  const TITLE_HEIGHT: int := 16
  const LINE_HEIGHT: int := 12
  const LINE_SPACING: int := 2
  const CONTENT_START_Y: int := TITLE_Y + TITLE_HEIGHT + LINE_SPACING
  const SCREEN_HEIGHT: int := 80

  /** `std::vector::resize`: cut to `n` lines or padded with default
      lines. */
  function Resize(s: seq<LineConfig>, n: nat): (r: seq<LineConfig>)
    ensures |r| == n
    ensures forall i :: 0 <= i < n ==> r[i] == if i < |s| then s[i] else EMPTY_LINE
  {
    seq(n, i requires 0 <= i < n => if i < |s| then s[i] else EMPTY_LINE)
  }

  /** The number of visible content lines: four under a title, five
      without. */
  function VisibleFor(hasTitle: bool): int
  {
    if hasTitle then 4 else 5
  }

  /** `get_line_y_position`: 0 outside lines 0-4, otherwise a 14-pixel
      pitch from below the title (or from the top without one). */
  function LineY(hasTitle: bool, i: int): (y: int)
    ensures !(0 <= i < 5) ==> y == 0
  {
    if i < 0 || i >= 5 then 0
    else (if hasTitle then CONTENT_START_Y else LINE_SPACING) + i * (LINE_HEIGHT + LINE_SPACING)
  }

  /** The visible lines lie below the title, one after another without
      overlap, and end on the screen. */
  lemma LinesFitScreen(hasTitle: bool, i: int, j: int)
    requires 0 <= i < j < VisibleFor(hasTitle)
    ensures LineY(hasTitle, i) + LINE_HEIGHT <= LineY(hasTitle, j)
    ensures LineY(hasTitle, j) + LINE_HEIGHT <= SCREEN_HEIGHT
    ensures hasTitle ==> TITLE_Y + TITLE_HEIGHT <= LineY(hasTitle, i)
  {
  }

  /** `s` with `j` (when it is a line) no longer selected; a menu jump
      also turns white again. */
  function Deselect(s: seq<LineConfig>, j: int): (r: seq<LineConfig>)
    ensures |r| == |s|
  {
    if 0 <= j < |s| then
      s[j := s[j].(selected := false, color := if s[j].kind == MenuJump then COLOR_TEXT_WHITE else s[j].color)]
    else s
  }

  /** `s` with line `p` selected and drawn in the primary colour. */
  function Select(s: seq<LineConfig>, p: int): (r: seq<LineConfig>)
    requires 0 <= p < |s|
    ensures |r| == |s|
  {
    s[p := s[p].(selected := true, color := COLOR_PRIMARY)]
  }

  /** Line `p` is the menu item number `n` (from 0) of `s`. */
  predicate IsNth(s: seq<LineConfig>, p: int, n: int)
  {
    0 <= p < |s| && Interactive(s[p]) && CountInteractive(s[..p]) == n
  }

  /** Two menu items cannot have the same number. */
  lemma NthUnique(s: seq<LineConfig>, p: int, q: int, n: int)
    requires IsNth(s, p, n) && IsNth(s, q, n)
    ensures p == q
  {
    if p < q {
      CountsPastItem(s, p, q);
    } else if q < p {
      CountsPastItem(s, q, p);
    }
  }

  /** Every line after a menu item numbers past it. */
  lemma CountsPastItem(s: seq<LineConfig>, p: int, q: int)
    requires 0 <= p < q <= |s| && Interactive(s[p])
    ensures CountInteractive(s[..q]) > CountInteractive(s[..p])
  {
    assert s[..q] == s[..p] + s[p..q];
    CountAppend(s[..p], s[p..q]);
    assert s[p..q] == [s[p]] + s[p + 1..q];
    CountAppend([s[p]], s[p + 1..q]);
  }

  /** After deselecting the old line and selecting `p`, exactly `p` is
      selected, provided only the old line was selected before. */
  lemma SelectionMovesOnly(s: seq<LineConfig>, prev: int, p: int)
    requires 0 <= p < |s|
    requires forall j :: 0 <= j < |s| && s[j].selected ==> j == prev
    ensures forall j :: 0 <= j < |s| ==> (Select(Deselect(s, prev), p)[j].selected <==> j == p)
    ensures forall j :: 0 <= j < |s| && j != p && j != prev ==> Select(Deselect(s, prev), p)[j] == s[j]
  {
  }

  /** Selection changes no line's text or kind, so the menu items stay the
      same. */
  lemma SelectionKeepsMenu(s: seq<LineConfig>, prev: int, p: int)
    requires 0 <= p < |s|
    ensures CountInteractive(Select(Deselect(s, prev), p)) == CountInteractive(s)
  {
    DeselectKeepsMenu(s, prev);
    SelectKeepsMenu(Deselect(s, prev), p);
  }

  lemma DeselectKeepsMenu(s: seq<LineConfig>, j: int)
    ensures CountInteractive(Deselect(s, j)) == CountInteractive(s)
  {
    var t := Deselect(s, j);
    assert forall i :: 0 <= i < |s| ==> t[i].text == s[i].text && t[i].kind == s[i].kind;
    CountIgnoresSelection(t, s);
  }

  lemma SelectKeepsMenu(s: seq<LineConfig>, p: int)
    requires 0 <= p < |s|
    ensures CountInteractive(Select(s, p)) == CountInteractive(s)
  {
    var t := Select(s, p);
    assert forall i :: 0 <= i < |s| ==> t[i].text == s[i].text && t[i].kind == s[i].kind;
    CountIgnoresSelection(t, s);
  }

  /** The start `set_visible_end_line` computes for a target line. */
  function EndLineStart(target: int, total: int, visible: int): (r: int)
    ensures 0 <= r <= Max(0, total - visible)
    ensures target < visible ==> r == 0
    ensures visible <= target && target - visible + 1 <= Max(0, total - visible) ==> r == target - visible + 1
  {
    var maxStart := Max(0, total - visible);
    var s := if target < visible then 0 else Min(target - visible + 1, maxStart);
    Max(0, Min(s, maxStart))
  }

  /** Scrolling to a target line leaves it on screen. */
  lemma EndLineVisible(target: int, total: int, visible: int)
    requires 0 <= target < total && visible > 0
    ensures var r := ClampStart(EndLineStart(target, total, visible), total, visible);
      r <= target < r + visible
  {
  }

  /** A line cleared by `clear`. */
  function Cleared(l: LineConfig): LineConfig
  {
    l.(text := "", kind := TextItem, color := COLOR_TEXT_WHITE, selected := false)
  }

  class PageTemplate {
    var title: string
    var titleColor: u16
    /** `lines_`, the lines drawn. */
    var lines: seq<LineConfig>
    /** `all_lines_`, every line of the page. */
    var allLines: seq<LineConfig>
    var visibleCount: int
    var selectedIndex: int
    var scrollEnabled: bool
    /** `has_title_`, a static shared by every template. */
    var hasTitle: bool
    const scrollBar: ScrollBar

    ghost predicate Valid()
      reads this, scrollBar
    {
      scrollBar.Valid() && scrollBar.visibleCount >= 0 && (visibleCount == 4 || visibleCount == 5)
    }

    /** What `update_scroll_display` shows: the scroll bar's window, fitted
        to the visible lines. */
    function Displayed(): seq<LineConfig>
      requires Valid()
      reads this, scrollBar
    {
      Resize(Window(scrollBar.allLines, scrollBar.start, scrollBar.visibleCount), visibleCount)
    }

    /** A new template; `has_title_` is static and is not reset here, so it
        keeps the value `sharedHasTitle` the last template left in it. */
    constructor (sharedHasTitle: bool)
      ensures Valid() && fresh(scrollBar)
      ensures title == "" && titleColor == COLOR_WHITE && lines == Resize([], 5) && allLines == []
      ensures visibleCount == 5 && selectedIndex == 0 && !scrollEnabled
      ensures hasTitle == sharedHasTitle
    {
      title := "";
      titleColor := COLOR_WHITE;
      lines := Resize([], 5);
      allLines := [];
      visibleCount := 5;
      selectedIndex := 0;
      scrollEnabled := false;
      hasTitle := sharedHasTitle;
      scrollBar := new ScrollBar();
    }

    /** `flush`: the drawn lines and the title go, the scroll state and
        the selection stay. */
    method Flush()
      modifies this
      ensures lines == [] && !hasTitle && title == "" && titleColor == COLOR_WHITE
      ensures allLines == old(allLines) && visibleCount == old(visibleCount) && selectedIndex == old(selectedIndex)
      ensures scrollEnabled == old(scrollEnabled)
    {
      lines := [];
      hasTitle := false;
      title := "";
      titleColor := COLOR_WHITE;
    }

    /** `set_title`: four visible lines with a title, five without. */
    method SetTitle(t: string, c: u16)
      requires Valid()
      modifies this
      ensures Valid()
      ensures title == t && titleColor == c && hasTitle == (t != [])
      ensures visibleCount == VisibleFor(t != []) && lines == Resize(old(lines), visibleCount)
      ensures allLines == old(allLines) && selectedIndex == old(selectedIndex) && scrollEnabled == old(scrollEnabled)
    {
      title := t;
      titleColor := c;
      hasTitle := t != [];
      visibleCount := if hasTitle then 4 else 5;
      lines := Resize(lines, visibleCount);
    }

    /** `set_lines`: the first lines given, up to the visible count, the
        rest empty. */
    method SetLines(ls: seq<LineConfig>)
      requires Valid()
      modifies this
      ensures Valid()
      ensures lines == Resize(ls, visibleCount)
      ensures allLines == old(allLines) && visibleCount == old(visibleCount) && selectedIndex == old(selectedIndex)
      ensures scrollEnabled == old(scrollEnabled) && hasTitle == old(hasTitle) && title == old(title)
    {
      lines := Resize([], visibleCount);
      var i := 0;
      while i < |ls| && i < visibleCount
        invariant 0 <= i <= visibleCount && i <= |ls| && |lines| == visibleCount
        invariant forall j :: 0 <= j < visibleCount ==> lines[j] == if j < i then ls[j] else EMPTY_LINE
        invariant allLines == old(allLines) && visibleCount == old(visibleCount) && selectedIndex == old(selectedIndex)
        invariant scrollEnabled == old(scrollEnabled) && hasTitle == old(hasTitle) && title == old(title)
      {
        lines := lines[i := Copy(ls[i])];
        i := i + 1;
      }
    }

    /** `update_scroll_display`: in scroll mode the drawn lines become the
        scroll bar's window. */
    method UpdateScrollDisplay()
      requires Valid()
      modifies this
      ensures Valid()
      ensures lines == if scrollEnabled then Displayed() else old(lines)
      ensures allLines == old(allLines) && visibleCount == old(visibleCount) && selectedIndex == old(selectedIndex)
      ensures scrollEnabled == old(scrollEnabled) && hasTitle == old(hasTitle) && title == old(title)
    {
      if !scrollEnabled {
        return;
      }
      var v := scrollBar.GetVisibleLines();
      SetLines(v);
    }

    /** `set_line`: in scroll mode an index of the full list is replaced
        and the display refreshed from the scroll bar; otherwise only lines
        0-3 can be set. */
    method SetLine(i: int, cfg: LineConfig)
      requires Valid()
      requires !(scrollEnabled && allLines != []) && 0 <= i < 4 ==> i < |lines|
      modifies this
      ensures Valid()
      ensures visibleCount == old(visibleCount) && selectedIndex == old(selectedIndex) && scrollEnabled == old(scrollEnabled)
      ensures old(scrollEnabled) && old(allLines) != [] ==>
        if 0 <= i < |old(allLines)| then allLines == old(allLines)[i := cfg] && lines == Displayed()
        else allLines == old(allLines) && lines == old(lines)
      ensures !(old(scrollEnabled) && old(allLines) != []) ==>
        allLines == old(allLines) && lines == if 0 <= i < 4 then old(lines)[i := cfg] else old(lines)
    {
      if scrollEnabled && allLines != [] {
        if 0 <= i < |allLines| {
          allLines := allLines[i := Copy(cfg)];
          UpdateScrollDisplay();
        }
      } else if 0 <= i < 4 {
        lines := lines[i := Copy(cfg)];
      }
    }

    /** `set_all_lines`: more lines than fit turn scrolling on and show the
        scroll bar's window (its start index kept); otherwise the lines are
        drawn directly and the selection goes back to 0. */
    method SetAllLines(ls: seq<LineConfig>)
      requires Valid()
      modifies this, scrollBar
      ensures Valid()
      ensures allLines == ls && visibleCount == VisibleFor(hasTitle) && hasTitle == old(hasTitle)
      ensures scrollEnabled == (|ls| > visibleCount)
      ensures scrollEnabled ==>
        scrollBar.allLines == ls[..Min(|ls|, MAX_PAGE_LINES)] && scrollBar.visibleCount == visibleCount &&
        scrollBar.start == old(scrollBar.start) && scrollBar.scrollEnabled &&
        lines == Displayed() && selectedIndex == old(selectedIndex)
      ensures !scrollEnabled ==>
        lines == Resize(ls, visibleCount) && selectedIndex == 0 &&
        scrollBar.allLines == old(scrollBar.allLines) && scrollBar.start == old(scrollBar.start)
    {
      visibleCount := if hasTitle then 4 else 5;
      lines := Resize([], visibleCount);
      allLines := ls;
      if |ls| > visibleCount {
        scrollBar.SetupPageScroll(ls, visibleCount);
        scrollEnabled := true;
        UpdateScrollDisplay();
      } else {
        scrollEnabled := false;
        SetLines(ls);
        selectedIndex := 0;
      }
    }

    /** `clear`: the title goes and every drawn line becomes an empty white
        text line; the selection goes back to 0. */
    method Clear()
      modifies this
      ensures title == "" && titleColor == COLOR_WHITE && selectedIndex == 0
      ensures |lines| == |old(lines)| && forall j :: 0 <= j < |lines| ==> lines[j] == Cleared(old(lines)[j])
      ensures allLines == old(allLines) && visibleCount == old(visibleCount) && scrollEnabled == old(scrollEnabled)
    {
      title := "";
      titleColor := COLOR_WHITE;
      var i := 0;
      while i < |lines|
        invariant 0 <= i <= |lines| && |lines| == |old(lines)|
        invariant forall j :: 0 <= j < |lines| ==> lines[j] == if j < i then Cleared(old(lines)[j]) else old(lines)[j]
        invariant title == "" && titleColor == COLOR_WHITE
        invariant allLines == old(allLines) && visibleCount == old(visibleCount) && scrollEnabled == old(scrollEnabled)
      {
        lines := lines[i := Cleared(lines[i])];
        i := i + 1;
      }
      selectedIndex := 0;
    }

    /** `clear_line`: lines 0-3 lose their text, kind and selection. */
    method ClearLine(i: int)
      requires 0 <= i < 4 ==> i < |lines|
      modifies this
      ensures lines == if 0 <= i < 4 then old(lines)[i := old(lines)[i].(text := "", kind := TextItem, selected := false)]
                       else old(lines)
      ensures allLines == old(allLines) && selectedIndex == old(selectedIndex)
    {
      if 0 <= i < 4 {
        lines := lines[i := lines[i].(text := "", kind := TextItem, selected := false)];
      }
    }

    /** `set_progress`: lines 0-3 become a progress line with the text; the
        progress value itself is not stored. */
    method SetProgress(i: int, text: string)
      requires 0 <= i < 4 ==> i < |lines|
      modifies this
      ensures lines == if 0 <= i < 4 then old(lines)[i := old(lines)[i].(kind := ProgressBar, text := text, color := COLOR_SUCCESS)]
                       else old(lines)
      ensures allLines == old(allLines) && selectedIndex == old(selectedIndex)
    {
      if 0 <= i < 4 {
        lines := lines[i := lines[i].(kind := ProgressBar, text := text, color := COLOR_SUCCESS)];
      }
    }

    /** `get_menu_item_count`: the number of menu items in the full list. */
    method GetMenuItemCount() returns (count: int)
      ensures count == CountInteractive(allLines)
    {
      count := 0;
      var i := 0;
      while i < |allLines|
        invariant 0 <= i <= |allLines| && count == CountInteractive(allLines[..i])
      {
        assert allLines[..i + 1][..i] == allLines[..i];
        if Interactive(allLines[i]) {
          count := count + 1;
        }
        i := i + 1;
      }
      assert allLines[..i] == allLines;
    }

    /** `get_line_config`: the line, or an empty one out of range. */
    method GetLineConfig(i: int) returns (l: LineConfig)
      ensures l == if 0 <= i < |allLines| then allLines[i] else EMPTY_LINE
    {
      if allLines != [] && 0 <= i < |allLines| {
        return allLines[i];
      }
      l := EMPTY_LINE;
    }

    /** `set_selected_index`: outside scroll mode, menu item number `index`
        becomes the selected line and the old selected line is cleared;
        an index that is not a menu item changes nothing. */
    method SetSelectedIndex(index: int)
      modifies this
      ensures !old(scrollEnabled) && 0 <= index < CountInteractive(old(allLines)) ==>
        IsNth(old(allLines), selectedIndex, index) &&
        allLines == Select(Deselect(old(allLines), old(selectedIndex)), selectedIndex)
      ensures !(!old(scrollEnabled) && 0 <= index < CountInteractive(old(allLines))) ==>
        allLines == old(allLines) && selectedIndex == old(selectedIndex)
      ensures lines == old(lines) && scrollEnabled == old(scrollEnabled) && visibleCount == old(visibleCount)
    {
      if scrollEnabled {
        return;
      }
      var menuCount := GetMenuItemCount();
      if !(0 <= index < menuCount) {
        return;
      }
      // With `all_lines_` empty there is no menu item, so the target list is
      // always `all_lines_` here.
      var actual := -1;
      var counter := 0;
      var i := 0;
      while i < |allLines| && actual == -1
        invariant 0 <= i <= |allLines|
        invariant actual == -1 ==> counter == CountInteractive(allLines[..i]) && counter <= index
        invariant actual != -1 ==> IsNth(allLines, actual, index)
      {
        assert allLines[..i + 1][..i] == allLines[..i];
        if Interactive(allLines[i]) {
          if counter == index {
            actual := i;
          } else {
            counter := counter + 1;
          }
        }
        i := i + 1;
      }
      assert allLines[..|allLines|] == allLines;
      if actual == -1 {
        // Unreachable: the loop meets menu item `index` before the end.
        assert false;
      }
      allLines := Deselect(allLines, selectedIndex);
      selectedIndex := actual;
      allLines := Select(allLines, actual);
    }

    /** `scroll_up`. */
    method ScrollUp() returns (ok: bool)
      requires Valid()
      modifies this, scrollBar
      ensures Valid()
      ensures ok <==> old(scrollEnabled) && old(scrollBar.scrollEnabled) && old(scrollBar.start) > 0
      ensures ok ==> lines == Displayed()
      ensures !ok ==> lines == old(lines) && scrollBar.start == old(scrollBar.start)
      ensures scrollBar.allLines == old(scrollBar.allLines) && allLines == old(allLines)
    {
      if !scrollEnabled {
        return false;
      }
      ok := scrollBar.ScrollUp();
      if ok {
        UpdateScrollDisplay();
      }
    }

    /** `scroll_down`. */
    method ScrollDown() returns (ok: bool)
      requires Valid()
      modifies this, scrollBar
      ensures Valid()
      ensures ok <==> old(scrollEnabled) && old(scrollBar.scrollEnabled) &&
                      old(scrollBar.start) < |old(scrollBar.allLines)| - old(scrollBar.visibleCount)
      ensures ok ==> lines == Displayed() && scrollBar.start == old(scrollBar.start) + 1
      ensures !ok ==> lines == old(lines) && scrollBar.start == old(scrollBar.start)
      ensures scrollBar.allLines == old(scrollBar.allLines) && allLines == old(allLines)
    {
      if !scrollEnabled {
        return false;
      }
      ok := scrollBar.ScrollDown();
      if ok {
        UpdateScrollDisplay();
      }
    }

    /** `set_scroll_position`: only in scroll mode. */
    method SetScrollPosition(position: int)
      requires Valid()
      modifies this, scrollBar
      ensures Valid()
      ensures scrollEnabled ==> scrollBar.start == ClampStart(position, |scrollBar.allLines|, scrollBar.visibleCount) &&
                                lines == Displayed()
      ensures !scrollEnabled ==> scrollBar.start == old(scrollBar.start) && lines == old(lines)
      ensures scrollBar.allLines == old(scrollBar.allLines) && allLines == old(allLines)
    {
      if scrollEnabled {
        scrollBar.SetDisplayStartIndex(position);
        UpdateScrollDisplay();
      }
    }

    /** `set_visible_end_line`: in scroll mode, a line of the full list
        becomes the last visible line where the list allows it. */
    method SetVisibleEndLine(target: int)
      requires Valid()
      modifies this, scrollBar
      ensures Valid()
      ensures scrollEnabled && allLines != [] && 0 <= target < |allLines| ==>
        scrollBar.start == ClampStart(EndLineStart(target, |allLines|, visibleCount), |scrollBar.allLines|, scrollBar.visibleCount) &&
        lines == Displayed()
      ensures !(scrollEnabled && allLines != [] && 0 <= target < |allLines|) ==>
        scrollBar.start == old(scrollBar.start) && lines == old(lines)
      ensures scrollBar.allLines == old(scrollBar.allLines) && scrollBar.visibleCount == old(scrollBar.visibleCount)
      ensures allLines == old(allLines) && visibleCount == old(visibleCount)
    {
      if !scrollEnabled || allLines == [] {
        return;
      }
      if target < 0 || target >= |allLines| {
        return;
      }
      var maxStart := Max(0, |allLines| - visibleCount);
      var newStart;
      if target < visibleCount {
        newStart := 0;
      } else {
        newStart := target - visibleCount + 1;
        if newStart > maxStart {
          newStart := maxStart;
        }
      }
      newStart := Max(0, Min(newStart, maxStart));
      scrollBar.SetDisplayStartIndex(newStart);
      UpdateScrollDisplay();
    }
  }
}
