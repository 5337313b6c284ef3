/** The page template's line descriptions: `LineConfig`, its factories,
    its copy operations, and the rule for which lines are interactive menu
    items. */
module LineConfigs {
  import opened Common

  const COLOR_WHITE: u16 := 0xFFFF
  const COLOR_TEXT_WHITE: u16 := 0xFFFF
  const COLOR_PRIMARY: u16 := 0x801F
  const COLOR_SUCCESS: u16 := 0xE007

  datatype LineType = TextItem | StatusLine | MenuJump | ProgressBar | IntSetting | ButtonItem | BackItem | SelectorItem

  datatype LineAlign = Left | Center | Right

  /** Which member of the callback union is live; the callbacks
      themselves are not part of this model. */
  datatype CallbackType = NoCallback | ValueChange | Complete | Click | Selector

  /** `LineConfig`. The union members become separate fields: the bounds
      of an integer setting and the selector's lock. */
  datatype LineConfig = LineConfig(
    kind: LineType, text: string, color: u16, align: LineAlign, selected: bool,
    settingTitle: string, targetPage: string, jumpStr: string,
    minValue: int, maxValue: int, locked: bool, callback: CallbackType, hasLock: bool)

  /** The default constructor: an empty left-aligned white text line. */
  const EMPTY_LINE: LineConfig :=
    LineConfig(TextItem, "", COLOR_TEXT_WHITE, Left, false, "", "", "", 0, 0, false, NoCallback, false)

  /** A line that counts as a menu item: non-empty text and one of the five
      interactive kinds. */
  predicate Interactive(l: LineConfig)
  {
    l.text != [] && l.kind in {MenuJump, IntSetting, ButtonItem, BackItem, SelectorItem}
  }

  /** The number of menu items among `s`. */
  function CountInteractive(s: seq<LineConfig>): (n: nat)
    ensures n <= |s|
  {
    if s == [] then 0
    else CountInteractive(s[..|s| - 1]) + (if Interactive(s[|s| - 1]) then 1 else 0)
  }

  /** Counting over a concatenation adds the counts. */
  lemma {:induction false} CountAppend(s: seq<LineConfig>, t: seq<LineConfig>)
    ensures CountInteractive(s + t) == CountInteractive(s) + CountInteractive(t)
    decreases |t|
  {
    if t == [] {
      assert s + t == s;
    } else {
      assert (s + t)[..|s + t| - 1] == s + t[..|t| - 1];
      CountAppend(s, t[..|t| - 1]);
    }
  }

  /** Selecting or recolouring a line does not change which lines are menu
      items. */
  lemma {:induction false} CountIgnoresSelection(s: seq<LineConfig>, t: seq<LineConfig>)
    requires |s| == |t|
    requires forall i :: 0 <= i < |s| ==> s[i].text == t[i].text && s[i].kind == t[i].kind
    ensures CountInteractive(s) == CountInteractive(t)
  {
    if s != [] {
      CountIgnoresSelection(s[..|s| - 1], t[..|t| - 1]);
    }
  }

  // ---------------------------------------------------------------------
  // Factories

  /** The one-string constructor. */
  function TextLine(txt: string, c: u16, a: LineAlign): (l: LineConfig)
    ensures !Interactive(l) && !l.selected && l.text == txt
  {
    EMPTY_LINE.(text := txt, color := c, align := a)
  }

  /** The two-string constructor: the text is `title: content`. */
  function TitledTextLine(title: string, content: string, c: u16, a: LineAlign): (l: LineConfig)
    ensures !Interactive(l) && !l.selected
    ensures |l.text| == |title| + 2 + |content| && l.text[..|title|] == title && l.text[|title| + 2..] == content
  {
    EMPTY_LINE.(text := title + ": " + content, color := c, align := a)
  }

  /** `create_status_line`. */
  function StatusLineOf(txt: string, c: u16, a: LineAlign): (l: LineConfig)
    ensures !Interactive(l) && !l.selected && l.kind == StatusLine && l.callback == NoCallback
  {
    EMPTY_LINE.(kind := StatusLine, text := txt, color := c, align := a)
  }

  /** `create_menu_jump`. */
  function MenuJumpOf(txt: string, target: string, c: u16, jump: string): (l: LineConfig)
    ensures Interactive(l) <==> txt != []
    ensures !l.selected && l.targetPage == target && l.jumpStr == jump && l.align == Left
  {
    EMPTY_LINE.(kind := MenuJump, text := txt, targetPage := target, jumpStr := jump, color := c)
  }

  /** `create_progress_bar`; the progress pointer is not part of this
      model. */
  function ProgressBarOf(c: u16): (l: LineConfig)
    ensures !Interactive(l) && !l.selected && l.kind == ProgressBar
  {
    EMPTY_LINE.(kind := ProgressBar, color := c)
  }

  /** `create_int_setting`: a change callback wins over a completion
      callback. */
  function IntSettingOf(minValue: int, maxValue: int, display: string, title: string,
                        hasChange: bool, hasComplete: bool, c: u16): (l: LineConfig)
    ensures Interactive(l) <==> display != []
    ensures l.callback == (if hasChange then ValueChange else if hasComplete then Complete else NoCallback)
    ensures l.minValue == minValue && l.maxValue == maxValue && l.settingTitle == title && l.align == Center
  {
    var cb := if hasChange then ValueChange else if hasComplete then Complete else NoCallback;
    EMPTY_LINE.(kind := IntSetting, text := display, settingTitle := title, minValue := minValue,
                maxValue := maxValue, callback := cb, color := c, align := Center)
  }

  /** `create_button`. */
  function ButtonOf(txt: string, c: u16, a: LineAlign): (l: LineConfig)
    ensures Interactive(l) <==> txt != []
    ensures l.callback == Click && !l.selected
  {
    EMPTY_LINE.(kind := ButtonItem, text := txt, callback := Click, color := c, align := a)
  }

  /** `create_back_item`. */
  function BackItemOf(txt: string, c: u16): (l: LineConfig)
    ensures Interactive(l) <==> txt != []
    ensures l.callback == NoCallback && !l.selected && l.align == Left
  {
    EMPTY_LINE.(kind := BackItem, text := txt, color := c)
  }

  /** `create_selector`: unlocked, with the selector callback live. */
  function SelectorOf(txt: string, hasLock: bool, c: u16, a: LineAlign): (l: LineConfig)
    ensures Interactive(l) <==> txt != []
    ensures l.callback == Selector && !l.locked && l.hasLock == hasLock
  {
    EMPTY_LINE.(kind := SelectorItem, text := txt, callback := Selector, hasLock := hasLock, color := c, align := a)
  }

  // ---------------------------------------------------------------------
  // Copying

  /** The copy and move constructors as written: every field is taken
      from the source except `jump_str`, which starts empty. */
  function CopyAsWritten(other: LineConfig): (r: LineConfig)
    ensures r.jumpStr == [] && r.(jumpStr := other.jumpStr) == other
  {
    other.(jumpStr := "")
  }

  /** The copy and move assignments as written: `jump_str` keeps the
      target's old value. */
  function AssignAsWritten(target: LineConfig, other: LineConfig): (r: LineConfig)
    ensures r.jumpStr == target.jumpStr && r.(jumpStr := other.jumpStr) == other
  {
    other.(jumpStr := target.jumpStr)
  }

  /** A menu jump carrying a device name loses it when the line is copied
      into a fresh line or assigned over an empty one. */
  lemma JumpStrLostOnCopy()
    ensures var l := MenuJumpOf("Dev", "device", COLOR_TEXT_WHITE, "TS0");
      CopyAsWritten(l).jumpStr == "" && AssignAsWritten(EMPTY_LINE, l).jumpStr == "" && l.jumpStr == "TS0"
  {
  }

  /** A copy that keeps every field, `jump_str` included; the page
      template model copies lines with it. */
  function Copy(other: LineConfig): (r: LineConfig)
    ensures r == other && r.jumpStr == other.jumpStr && Interactive(r) == Interactive(other)
  {
    other
  }
}
