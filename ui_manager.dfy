/** The parts of the `UIManager` that are decisions rather than drawing:
    key names and the key codes they stand for, page switching, the main
    menu's cursor and the sensitivity value moved by the joystick, the
    bounded error history, and the LED selection saved as a light
    region's bitmap. */
module UiManager {
  import opened Common
  import opened Bits
  import opened Text
  import opened PageTypes
  import Hid

  // ---------------------------------------------------------------------
  // Key codes and names

  const KEY_NONE: byte := 0x00
  const KEY_A: byte := 0x04
  const KEY_D: byte := 0x07
  const KEY_F: byte := 0x09
  const KEY_J: byte := 0x0D
  const KEY_K: byte := 0x0E
  const KEY_L: byte := 0x0F
  const KEY_S: byte := 0x16
  const KEY_1: byte := 0x1E
  const KEY_0: byte := 0x27
  const KEY_ENTER: byte := 0x28
  const KEY_ESCAPE: byte := 0x29
  const KEY_BACKSPACE: byte := 0x2A
  const KEY_TAB: byte := 0x2B
  const KEY_SPACE: byte := 0x2C
  /** `KEY_F1`; `F<n>` is `KEY_F1 + n - 1` up to `F12`. */
  const KEY_F1: byte := 0x3A
  const KEY_RIGHT_ARROW: byte := 0x4F
  const KEY_LEFT_ARROW: byte := 0x50
  const KEY_DOWN_ARROW: byte := 0x51
  const KEY_UP_ARROW: byte := 0x52
  const KEY_LEFT_CTRL: byte := 0xE0
  const KEY_LEFT_SHIFT: byte := 0xE1
  const KEY_LEFT_ALT: byte := 0xE2

  /** The names `getKeyName` knows, in its order. */
  const NAMED_KEYS: seq<string> := ["A", "S", "D", "F", "J", "K", "L", "Space", "Enter",
    "F1", "F2", "F3", "F4", "F5", "F6", "F7", "F8", "F9", "F10", "F11", "F12"]

  /** The function-key name `F<n>`. */
  function FKeyName(n: nat): (s: string)
    requires 1 <= n <= 12
    ensures s == "F" + NatToString(n)
  {
    if n < 10 then ['F', DigitChar(n)] else ['F', '1', DigitChar(n - 10)]
  }

  /** `getKeyName`: the label of a key code, "Unknown" for the rest. */
  function KeyName(k: byte): (s: string)
    ensures s != "Unknown" <==> k in {KEY_A, KEY_S, KEY_D, KEY_F, KEY_J, KEY_K, KEY_L, KEY_SPACE, KEY_ENTER}
                                 || KEY_F1 <= k < KEY_F1 + 12
  {
    if k == KEY_A then "A"
    else if k == KEY_S then "S"
    else if k == KEY_D then "D"
    else if k == KEY_F then "F"
    else if k == KEY_J then "J"
    else if k == KEY_K then "K"
    else if k == KEY_L then "L"
    else if k == KEY_SPACE then "Space"
    else if k == KEY_ENTER then "Enter"
    else if KEY_F1 <= k < KEY_F1 + 12 then FKeyName(k - KEY_F1 + 1)
    else "Unknown"
  }

  /** The multi-letter names `getKeyCodeFromName` dispatches on by their
      first letter; "Clear" and every other name give `KEY_NONE`. */
  function SpecialKey(name: string): (k: byte)
  {
    if name == "Space" then KEY_SPACE
    else if name == "Shift" then KEY_LEFT_SHIFT
    else if name == "Enter" then KEY_ENTER
    else if name == "Escape" then KEY_ESCAPE
    else if name == "Tab" then KEY_TAB
    else if name == "Backspace" then KEY_BACKSPACE
    else if name == "Clear" then KEY_NONE
    else if name == "Ctrl" then KEY_LEFT_CTRL
    else if name == "Alt" then KEY_LEFT_ALT
    else if |name| >= 2 && name[0] == 'F' && '1' <= name[1] <= '9' && |name| == 2 then KEY_F1 + (name[1] - '1') as byte
    else if name == "F10" then KEY_F1 + 9
    else if name == "F11" then KEY_F1 + 10
    else if name == "F12" then KEY_F1 + 11
    else if name == "Up" then KEY_UP_ARROW
    else if name == "Down" then KEY_DOWN_ARROW
    else if name == "Left" then KEY_LEFT_ARROW
    else if name == "Right" then KEY_RIGHT_ARROW
    else KEY_NONE
  }

  predicate IsUpperChar(c: char) { 'A' <= c <= 'Z' }
  predicate IsLowerChar(c: char) { 'a' <= c <= 'z' }

  /** `getKeyCodeFromName` as written: a single digit `d` gives
      `KEY_0 + d`, which lands past `KEY_0` on Enter, Escape and so on. */
  function KeyCodeFromNameAsWritten(name: string): (k: byte)
  {
    if name == [] then KEY_NONE
    else if |name| == 1 && IsUpperChar(name[0]) then KEY_A + (name[0] - 'A') as byte
    else if |name| == 1 && IsLowerChar(name[0]) then KEY_A + (name[0] - 'a') as byte
    else if |name| == 1 && IsDigit(name[0]) then KEY_0 + (name[0] - '0') as byte
    else SpecialKey(name)
  }

  /** The key of a digit on the keyboard's number row: `KEY_1` to `KEY_9`,
      then `KEY_0`. */
  function DigitKey(c: char): (k: byte)
    requires IsDigit(c)
    ensures k == Hid.CharToKeycode(c)
  {
    if c == '0' then KEY_0 else KEY_1 + (c - '1') as byte
  }

  /** `getKeyCodeFromName` with digits mapped to their own keys; the rest
      of the model uses this one. */
  function KeyCodeFromName(name: string): (k: byte)
    ensures |name| == 1 && IsUpperChar(name[0]) ==> k == KEY_A + (name[0] - 'A') as byte
    ensures |name| == 1 && IsLowerChar(name[0]) ==> k == KEY_A + (name[0] - 'a') as byte
    ensures |name| == 1 && IsDigit(name[0]) ==> k == Hid.CharToKeycode(name[0])
    ensures name == [] || name == "Clear" ==> k == KEY_NONE
  {
    if name == [] then KEY_NONE
    else if |name| == 1 && IsUpperChar(name[0]) then KEY_A + (name[0] - 'A') as byte
    else if |name| == 1 && IsLowerChar(name[0]) then KEY_A + (name[0] - 'a') as byte
    else if |name| == 1 && IsDigit(name[0]) then DigitKey(name[0])
    else SpecialKey(name)
  }

  /** A letter names the same key in either case. */
  lemma LetterCaseIgnored(c: char)
    requires IsUpperChar(c)
    ensures KeyCodeFromName([c]) == KeyCodeFromName([(c as int + 32) as char]) == KEY_A + (c - 'A') as byte
  {
  }

  /** Every label `getKeyName` gives reads back as its key. */
  lemma NameThenCode(k: byte)
    requires KeyName(k) != "Unknown"
    ensures KeyCodeFromName(KeyName(k)) == k
  {
    if KEY_F1 <= k < KEY_F1 + 12 {
      var n := k - KEY_F1 + 1;
      if n >= 10 {
        assert KeyName(k) == ['F', '1', DigitChar(n - 10)];
      }
    }
  }

  /** Each known name reads as a key whose label is the name again. */
  lemma CodeThenName(i: nat)
    requires i < |NAMED_KEYS|
    ensures KeyName(KeyCodeFromName(NAMED_KEYS[i])) == NAMED_KEYS[i]
  {
    if i < 9 {
      var keys: seq<byte> := [KEY_A, KEY_S, KEY_D, KEY_F, KEY_J, KEY_K, KEY_L, KEY_SPACE, KEY_ENTER];
      assert KeyName(keys[i]) == NAMED_KEYS[i];
      NameThenCode(keys[i]);
    } else {
      var k: byte := KEY_F1 + (i - 9) as byte;
      assert KeyName(k) == FKeyName(i - 8);
      assert FKeyName(i - 8) == NAMED_KEYS[i];
      NameThenCode(k);
    }
  }

  /** As written, the name "1" gives the Enter key, and the two readings
      differ only on single digits other than "0". */
  lemma DigitOneIsEnter(name: string)
    ensures KeyCodeFromNameAsWritten("1") == KEY_ENTER && KeyName(KeyCodeFromNameAsWritten("1")) == "Enter"
    ensures KeyCodeFromName("1") == KEY_1
    ensures KeyCodeFromNameAsWritten(name) != KeyCodeFromName(name) <==> |name| == 1 && '1' <= name[0] <= '9'
  {
  }

  // ---------------------------------------------------------------------
  // Menu cursor and sensitivity

  /** The main menu's last index. */
  const MAIN_MENU_LAST: int := 6
  /** The sensitivity value's bounds. */
  const SENSITIVITY_MAX: int := 63
  /** Navigation events closer than this many milliseconds are dropped. */
  const NAVIGATION_DEBOUNCE_MS: nat := 200

  /** One step up the main menu, wrapping from the first item to the last. */
  function MenuUp(i: int): (r: int)
    ensures 0 <= r <= MAIN_MENU_LAST || r == i - 1
    ensures 0 < i <= MAIN_MENU_LAST + 1 ==> r == i - 1
    ensures i <= 0 ==> r == MAIN_MENU_LAST
  {
    if i > 0 then i - 1 else MAIN_MENU_LAST
  }

  /** One step down, wrapping from the last item to the first. */
  function MenuDown(i: int): (r: int)
    ensures i < MAIN_MENU_LAST ==> r == i + 1
    ensures i >= MAIN_MENU_LAST ==> r == 0
  {
    if i < MAIN_MENU_LAST then i + 1 else 0
  }

  /** Within the menu, down undoes up and up undoes down, and both stay in
      the menu. */
  lemma MenuUpDownInverse(i: int)
    requires 0 <= i <= MAIN_MENU_LAST
    ensures 0 <= MenuUp(i) <= MAIN_MENU_LAST && 0 <= MenuDown(i) <= MAIN_MENU_LAST
    ensures MenuDown(MenuUp(i)) == i && MenuUp(MenuDown(i)) == i
  {
  }

  /** The sensitivity after one step, held in `0..63`. */
  function SensitivityStep(v: int, up: bool): (r: int)
    ensures 0 <= r <= SENSITIVITY_MAX
    ensures 0 <= (if up then v + 1 else v - 1) <= SENSITIVITY_MAX ==> r == (if up then v + 1 else v - 1)
  {
    Clamp(if up then v + 1 else v - 1, 0, SENSITIVITY_MAX)
  }

  /** From inside the range, a step down undoes a step up unless the value
      was already at the top. */
  lemma SensitivityStepBack(v: int)
    requires 0 <= v < SENSITIVITY_MAX
    ensures SensitivityStep(SensitivityStep(v, true), false) == v
  {
  }

  /** `is_page_valid`: only the first eight pages can be switched to. */
  predicate IsPageValid(p: UIPage)
    ensures IsPageValid(p) <==> p < GUIDED_BINDING
  {
    0 <= p <= KEY_MAPPING
  }

  // ---------------------------------------------------------------------
  // Error history

  datatype ErrorType = NoError | HardwareInit | DisplayError | InputError | LightError | ConfigError
                     | CommunicationError | MemoryError | SensorError | CalibrationError | UnknownError

  /** `ErrorInfo`. */
  datatype ErrorInfo = ErrorInfo(kind: ErrorType, moduleName: string, description: string,
                                 errorCode: u32, timestamp: u32, isCritical: bool)

  const MAX_ERROR_HISTORY: nat := 50

  /** The history after `add_error_to_history`: the new error appended and,
      past the cap, the oldest entry dropped. */
  function HistoryAdd(h: seq<ErrorInfo>, e: ErrorInfo): (r: seq<ErrorInfo>)
    requires |h| <= MAX_ERROR_HISTORY
    ensures |r| <= MAX_ERROR_HISTORY && r != [] && r[|r| - 1] == e
    ensures |h| < MAX_ERROR_HISTORY ==> r == h + [e]
    ensures |h| == MAX_ERROR_HISTORY ==> r == h[1..] + [e]
  {
    var h' := h + [e];
    if |h'| > MAX_ERROR_HISTORY then h'[1..] else h'
  }

  /** The last `n` entries of `s`, or all of them when there are fewer. */
  function LastN<T>(s: seq<T>, n: nat): (r: seq<T>)
    ensures |r| == Min(|s|, n) && s == s[..|s| - |r|] + r
  {
    if |s| <= n then s else s[|s| - n..]
  }

  /** Reporting errors one after another keeps exactly the latest fifty,
      oldest first. */
  lemma {:induction false} HistoryKeepsLatest(h: seq<ErrorInfo>, es: seq<ErrorInfo>)
    requires |h| <= MAX_ERROR_HISTORY
    ensures AddAll(h, es) == LastN(h + es, MAX_ERROR_HISTORY)
    decreases |es|
  {
    if es != [] {
      var h' := HistoryAdd(h, es[0]);
      HistoryKeepsLatest(h', es[1..]);
      var n := MAX_ERROR_HISTORY;
      var all := h + es;
      if |h| < n {
        assert h' + es[1..] == all;
      } else {
        assert h' + es[1..] == all[1..];
        assert LastN(all[1..], n) == LastN(all, n);
      }
    } else {
      assert h + es == h;
    }
  }

  /** Errors reported in order. */
  function AddAll(h: seq<ErrorInfo>, es: seq<ErrorInfo>): (r: seq<ErrorInfo>)
    requires |h| <= MAX_ERROR_HISTORY
    ensures |r| <= MAX_ERROR_HISTORY
    decreases |es|
  {
    if es == [] then h else AddAll(HistoryAdd(h, es[0]), es[1..])
  }

  // ---------------------------------------------------------------------
  // LED selection for a light region

  /** The number of LEDs the selection screen offers. */
  const NEOPIXEL_CHOICES: int := 32
  /** LEDs at or past this index do not fit the region bitmap. */
  const BITMAP_BITS: int := 16

  /** The selection with `x` added when absent, or its first occurrence
      removed when present. */
  function Toggle(s: seq<int>, x: int): (r: seq<int>)
    ensures x !in s ==> r == s + [x]
    ensures x in s ==> |r| == |s| - 1
    decreases |s|
  {
    if s == [] then [x]
    else if s[0] == x then s[1..]
    else [s[0]] + Toggle(s[1..], x)
  }

  /** No index is selected twice. */
  predicate NoRepeats(s: seq<int>)
  {
    forall i, j :: 0 <= i < j < |s| ==> s[i] != s[j]
  }

  /** On a selection without repeats, toggling flips the membership of `x`
      and of nothing else, and keeps the selection free of repeats. */
  lemma {:induction false} ToggleFlips(s: seq<int>, x: int, y: int)
    requires NoRepeats(s)
    ensures NoRepeats(Toggle(s, x))
    ensures y in Toggle(s, x) <==> (if y == x then x !in s else y in s)
    decreases |s|
  {
    if s == [] {
    } else if s[0] != x {
      var t := Toggle(s[1..], x);
      ToggleFlips(s[1..], x, y);
      ToggleFlips(s[1..], x, s[0]);
      assert s[0] !in t;
      var r := [s[0]] + t;
      assert Toggle(s, x) == r;
      forall i, j | 0 <= i < j < |r|
        ensures r[i] != r[j]
      {
        if i == 0 {
          assert r[j] == t[j - 1];
        } else {
          assert r[i] == t[i - 1] && r[j] == t[j - 1];
        }
      }
      assert s == [s[0]] + s[1..];
    } else {
      assert Toggle(s, x) == s[1..];
      assert s == [s[0]] + s[1..];
      assert x !in s[1..] by {
        forall j | 0 <= j < |s[1..]|
          ensures s[1..][j] != x
        {
          assert s[1..][j] == s[j + 1];
        }
      }
    }
  }

  /** Toggling twice restores the selection as a set. */
  lemma ToggleTwice(s: seq<int>, x: int, y: int)
    requires NoRepeats(s)
    ensures y in Toggle(Toggle(s, x), x) <==> y in s
  {
    ToggleFlips(s, x, y);
    ToggleFlips(s, x, x);
    ToggleFlips(Toggle(s, x), x, y);
  }

  /** The bitmap `save_light_mapping` builds: one bit per selected LED below
      16. */
  function LightBitmap(s: seq<int>): (b: nat)
    requires forall i :: 0 <= i < |s| ==> 0 <= s[i] < NEOPIXEL_CHOICES
    decreases |s|
  {
    if s == [] then 0
    else
      var b := LightBitmap(s[..|s| - 1]);
      var led := s[|s| - 1];
      if led < BITMAP_BITS then Or(b, Pow2(led)) else b
  }

  /** Bit `j` of the bitmap is set exactly when LED `j` is selected and
      below 16, so the bitmap fits 16 bits. */
  lemma {:induction false} LightBitmapBits(s: seq<int>, j: nat)
    requires forall i :: 0 <= i < |s| ==> 0 <= s[i] < NEOPIXEL_CHOICES
    ensures Bit(LightBitmap(s), j) <==> j in s && j < BITMAP_BITS
    ensures LightBitmap(s) < Pow2(16)
    decreases |s|
  {
    if s == [] {
      ZeroBit(j);
    } else {
      var u := s[..|s| - 1];
      LightBitmapBits(u, j);
      var led := s[|s| - 1];
      assert s == u + [led];
      if led < BITMAP_BITS {
        OrBit(LightBitmap(u), Pow2(led), j);
        Pow2Bit(led, j);
        Pow2Mono(led, 16);
        OrBound(LightBitmap(u), Pow2(led), 16);
      }
    }
  }

  lemma {:induction false} Pow2Mono(a: nat, b: nat)
    requires a < b
    ensures Pow2(a) < Pow2(b)
    decreases b
  {
    if a + 1 < b {
      Pow2Mono(a, b - 1);
    }
  }

  /** `std::stoi` on the digits after "Region ": an optional minus sign and
      at least one digit; anything else throws, which is `None` here. */
  function Stoi(s: string): (r: Option<int>)
  {
    if s != [] && s[0] == '-' then
      var (v, e) := NumberAt(s, 1);
      if e == 1 then None else Some(-(v as int))
    else
      var (v, e) := NumberAt(s, 0);
      if e == 0 then None else Some(v)
  }

  const REGION_PREFIX: string := "Region "

  /** The region id `save_light_mapping` and `clear_light_mapping` read
      from the selected region's name, truncated to `uint8_t`; region 1 when
      the name does not start with "Region ". */
  function RegionIdOf(name: string): (r: Option<byte>)
  {
    if |name| >= |REGION_PREFIX| && name[..|REGION_PREFIX|] == REGION_PREFIX then
      match Stoi(name[|REGION_PREFIX|..])
      case Some(v) => Some(v % 0x100)
      case None => None
    else Some(1)
  }

  /** `std::to_string` then `std::stoi` gives the number back. */
  lemma StoiRoundTrip(n: int)
    ensures Stoi(IntToString(n)) == Some(n)
  {
    var m := if n >= 0 then n else -n;
    var d := NatToString(m);
    NatToStringValue(m);
    if n >= 0 {
      NumberAtDigits(d, 0, d);
    } else {
      var s := "-" + d;
      assert HoldsAt(s, 1, d);
      NumberAtDigits(s, 1, d);
    }
  }

  /** The region selected by number is the region saved, modulo 256. */
  lemma RegionNameRoundTrip(index: int)
    ensures RegionIdOf(REGION_PREFIX + IntToString(index)) == Some(index % 0x100)
  {
    var name := REGION_PREFIX + IntToString(index);
    assert name[|REGION_PREFIX|..] == IntToString(index);
    assert name[..|REGION_PREFIX|] == REGION_PREFIX;
    StoiRoundTrip(index);
  }

  /** A light-manager call the manager makes: a region and its bitmap. */
  datatype RegionWrite = RegionWrite(region: byte, bitmap: nat)

  /** The write `save_light_mapping` makes: none without a selected region,
      a light manager or a readable region number; otherwise the region's
      bitmap of selected LEDs. */
  function SaveOf(region: string, hasLightManager: bool, selected: seq<int>): (w: Option<RegionWrite>)
    requires forall i :: 0 <= i < |selected| ==> 0 <= selected[i] < NEOPIXEL_CHOICES
    ensures w.Some? ==> w.value.bitmap < Pow2(16)
    ensures w.Some? ==> forall j: nat :: Bit(w.value.bitmap, j) <==> j in selected && j < BITMAP_BITS
  {
    if region == [] || !hasLightManager then None
    else match RegionIdOf(region)
      case None => None
      case Some(id) =>
        LightBitmapAllBits(selected);
        Some(RegionWrite(id, LightBitmap(selected)))
  }

  /** `LightBitmapBits` for every bit at once. */
  lemma LightBitmapAllBits(s: seq<int>)
    requires forall i :: 0 <= i < |s| ==> 0 <= s[i] < NEOPIXEL_CHOICES
    ensures LightBitmap(s) < Pow2(16)
    ensures forall j: nat :: Bit(LightBitmap(s), j) <==> j in s && j < BITMAP_BITS
  {
    LightBitmapBits(s, 0);
    forall j: nat
      ensures Bit(LightBitmap(s), j) <==> j in s && j < BITMAP_BITS
    {
      LightBitmapBits(s, j);
    }
  }

  // ---------------------------------------------------------------------
  // The manager

  class UIManager {
    var currentPage: UIPage
    var previousPage: UIPage
    var pageNeedsRedraw: bool
    var currentMenuIndex: int
    var progressValue: int
    var lastNavigationTime: u32
    var errorHistory: seq<ErrorInfo>
    var selectedLightRegion: string
    var selectedNeopixels: seq<int>

    ghost predicate Valid()
      reads this
    {
      |errorHistory| <= MAX_ERROR_HISTORY
      && NoRepeats(selectedNeopixels)
      && (forall i :: 0 <= i < |selectedNeopixels| ==> 0 <= selectedNeopixels[i] < NEOPIXEL_CHOICES)
    }

    constructor ()
      ensures Valid()
      ensures currentPage == STATUS && previousPage == STATUS && currentMenuIndex == 0
      ensures lastNavigationTime == 0 && errorHistory == [] && selectedLightRegion == [] && selectedNeopixels == []
    {
      currentPage := STATUS;
      previousPage := STATUS;
      pageNeedsRedraw := true;
      currentMenuIndex := 0;
      progressValue := 0;
      lastNavigationTime := 0;
      errorHistory := [];
      selectedLightRegion := [];
      selectedNeopixels := [];
    }

    /** `set_current_page`: an invalid page is refused; the current page is
        accepted without change; otherwise the old page becomes the
        previous one, the new page is drawn afresh and its data reset. */
    method SetCurrentPage(page: UIPage) returns (ok: bool)
      requires Valid()
      modifies this
      ensures Valid()
      ensures ok <==> IsPageValid(page)
      ensures !ok || page == old(currentPage) ==>
        currentPage == old(currentPage) && previousPage == old(previousPage)
        && progressValue == old(progressValue) && pageNeedsRedraw == old(pageNeedsRedraw)
      ensures ok && page != old(currentPage) ==>
        currentPage == page && previousPage == old(currentPage) && pageNeedsRedraw && progressValue == 0
      ensures currentMenuIndex == old(currentMenuIndex) && errorHistory == old(errorHistory)
      ensures selectedNeopixels == old(selectedNeopixels) && selectedLightRegion == old(selectedLightRegion)
      ensures lastNavigationTime == old(lastNavigationTime)
    {
      if !IsPageValid(page) {
        return false;
      }
      if currentPage == page {
        return true;
      }
      previousPage := currentPage;
      currentPage := page;
      pageNeedsRedraw := true;
      ResetPageData();
      return true;
    }

    /** `reset_page_data`, as far as this model keeps page data. */
    method ResetPageData()
      modifies this
      ensures progressValue == 0
      ensures currentPage == old(currentPage) && previousPage == old(previousPage)
      ensures pageNeedsRedraw == old(pageNeedsRedraw) && currentMenuIndex == old(currentMenuIndex)
      ensures errorHistory == old(errorHistory) && lastNavigationTime == old(lastNavigationTime)
      ensures selectedNeopixels == old(selectedNeopixels) && selectedLightRegion == old(selectedLightRegion)
    {
      progressValue := 0;
    }

    /** `handle_navigation_input` at time `now` (milliseconds since boot).
        Within 200 ms of the last accepted event (measured modulo 2^32)
        nothing happens. Otherwise the main page moves its cursor with
        wrap-around and the sensitivity page steps its value within
        `0..63`; `applied` is the value handed to the input manager when a
        device is selected. */
    method HandleNavigationInput(up: bool, now: u32, deviceSelected: bool) returns (applied: Option<int>)
      requires Valid()
      modifies this
      ensures Valid()
      ensures (now - old(lastNavigationTime)) % 0x1_0000_0000 < NAVIGATION_DEBOUNCE_MS ==>
        applied.None? && currentMenuIndex == old(currentMenuIndex) && progressValue == old(progressValue)
        && lastNavigationTime == old(lastNavigationTime) && pageNeedsRedraw == old(pageNeedsRedraw)
      ensures (now - old(lastNavigationTime)) % 0x1_0000_0000 >= NAVIGATION_DEBOUNCE_MS ==>
        lastNavigationTime == now
        && currentMenuIndex == (if currentPage == MAIN then (if up then MenuUp(old(currentMenuIndex)) else MenuDown(old(currentMenuIndex)))
                                else old(currentMenuIndex))
        && progressValue == (if currentPage == SENSITIVITY then SensitivityStep(old(progressValue), up) else old(progressValue))
        && applied == (if currentPage == SENSITIVITY && deviceSelected then Some(progressValue) else None)
        && pageNeedsRedraw == (currentPage == SENSITIVITY || old(pageNeedsRedraw))
      ensures currentPage == old(currentPage) && previousPage == old(previousPage)
      ensures errorHistory == old(errorHistory)
      ensures selectedNeopixels == old(selectedNeopixels) && selectedLightRegion == old(selectedLightRegion)
    {
      applied := None;
      if (now - lastNavigationTime) % 0x1_0000_0000 < NAVIGATION_DEBOUNCE_MS {
        return;
      }
      lastNavigationTime := now;
      if currentPage == MAIN {
        if up {
          currentMenuIndex := if currentMenuIndex > 0 then currentMenuIndex - 1 else MAIN_MENU_LAST;
        } else {
          currentMenuIndex := if currentMenuIndex < MAIN_MENU_LAST then currentMenuIndex + 1 else 0;
        }
      } else if currentPage == SENSITIVITY {
        var newValue := if up then progressValue + 1 else progressValue - 1;
        newValue := if newValue < 0 then 0 else if newValue > SENSITIVITY_MAX then SENSITIVITY_MAX else newValue;
        progressValue := newValue;
        if deviceSelected {
          applied := Some(newValue);
        }
        pageNeedsRedraw := true;
      }
    }

    /** `add_error_to_history`. */
    method AddErrorToHistory(e: ErrorInfo)
      requires Valid()
      modifies this
      ensures Valid()
      ensures errorHistory == HistoryAdd(old(errorHistory), e)
      ensures currentPage == old(currentPage) && previousPage == old(previousPage)
      ensures pageNeedsRedraw == old(pageNeedsRedraw) && currentMenuIndex == old(currentMenuIndex)
      ensures progressValue == old(progressValue) && lastNavigationTime == old(lastNavigationTime)
      ensures selectedNeopixels == old(selectedNeopixels) && selectedLightRegion == old(selectedLightRegion)
    {
      errorHistory := errorHistory + [e];
      if |errorHistory| > MAX_ERROR_HISTORY {
        errorHistory := errorHistory[1..];
      }
    }

    /** `handle_light_region_selection`: names the region and clears the
        LED selection. */
    method HandleLightRegionSelection(regionIndex: int) returns (ok: bool)
      requires Valid()
      modifies this
      ensures Valid() && ok
      ensures selectedLightRegion == REGION_PREFIX + IntToString(regionIndex) && selectedNeopixels == []
      ensures RegionIdOf(selectedLightRegion) == Some(regionIndex % 0x100)
      ensures currentPage == old(currentPage) && previousPage == old(previousPage)
      ensures pageNeedsRedraw == old(pageNeedsRedraw) && currentMenuIndex == old(currentMenuIndex)
      ensures progressValue == old(progressValue) && lastNavigationTime == old(lastNavigationTime)
      ensures errorHistory == old(errorHistory)
    {
      selectedLightRegion := REGION_PREFIX + IntToString(regionIndex);
      selectedNeopixels := [];
      RegionNameRoundTrip(regionIndex);
      return true;
    }

    /** `handle_neopixel_selection`: indices outside `0..31` are refused;
        any other index is toggled in or out of the selection. */
    method HandleNeopixelSelection(index: int) returns (ok: bool)
      requires Valid()
      modifies this
      ensures Valid()
      ensures ok <==> 0 <= index < NEOPIXEL_CHOICES
      ensures selectedNeopixels == if ok then Toggle(old(selectedNeopixels), index) else old(selectedNeopixels)
      ensures ok ==> (index in selectedNeopixels <==> index !in old(selectedNeopixels))
      ensures currentPage == old(currentPage) && previousPage == old(previousPage)
      ensures pageNeedsRedraw == old(pageNeedsRedraw) && currentMenuIndex == old(currentMenuIndex)
      ensures progressValue == old(progressValue) && lastNavigationTime == old(lastNavigationTime)
      ensures errorHistory == old(errorHistory) && selectedLightRegion == old(selectedLightRegion)
    {
      if index < 0 || index >= NEOPIXEL_CHOICES {
        return false;
      }
      ToggleFlips(selectedNeopixels, index, index);
      var t := Toggle(selectedNeopixels, index);
      forall k | 0 <= k < |t|
        ensures 0 <= t[k] < NEOPIXEL_CHOICES
      {
        ToggleFlips(selectedNeopixels, index, t[k]);
      }
      selectedNeopixels := Toggle(selectedNeopixels, index);
      return true;
    }

    /** `save_light_mapping`: with a region selected and a light manager
        present, the selected LEDs below 16 become the region's bitmap,
        which is written (and saved) for the region named. */
    method SaveLightMapping(hasLightManager: bool) returns (write: Option<RegionWrite>)
      requires Valid()
      modifies this
      ensures Valid()
      ensures write == SaveOf(selectedLightRegion, hasLightManager, selectedNeopixels)
      ensures pageNeedsRedraw == (write.Some? || old(pageNeedsRedraw))
      ensures currentPage == old(currentPage) && previousPage == old(previousPage)
      ensures currentMenuIndex == old(currentMenuIndex) && progressValue == old(progressValue)
      ensures lastNavigationTime == old(lastNavigationTime) && errorHistory == old(errorHistory)
      ensures selectedNeopixels == old(selectedNeopixels) && selectedLightRegion == old(selectedLightRegion)
    {
      if selectedLightRegion == [] || !hasLightManager {
        return None;
      }
      var bitmap: nat := 0;
      var i := 0;
      while i < |selectedNeopixels|
        invariant 0 <= i <= |selectedNeopixels|
        invariant bitmap == LightBitmap(selectedNeopixels[..i])
      {
        assert selectedNeopixels[..i + 1][..i] == selectedNeopixels[..i];
        var led := selectedNeopixels[i];
        if led < BITMAP_BITS {
          bitmap := Or(bitmap, Pow2(led));
        }
        i := i + 1;
      }
      assert selectedNeopixels[..i] == selectedNeopixels;
      var region := RegionIdOf(selectedLightRegion);
      if region.None? {
        return None;
      }
      pageNeedsRedraw := true;
      return Some(RegionWrite(region.value, bitmap));
    }

    /** `clear_light_mapping`: the region's bitmap is written as 0 and the
        selection is cleared. */
    method ClearLightMapping(hasLightManager: bool) returns (write: Option<RegionWrite>)
      requires Valid()
      modifies this
      ensures Valid()
      ensures selectedLightRegion == [] || !hasLightManager || RegionIdOf(selectedLightRegion).None? ==>
        write.None? && selectedNeopixels == old(selectedNeopixels) && pageNeedsRedraw == old(pageNeedsRedraw)
      ensures selectedLightRegion != [] && hasLightManager && RegionIdOf(selectedLightRegion).Some? ==>
        write == Some(RegionWrite(RegionIdOf(selectedLightRegion).value, 0)) && selectedNeopixels == [] && pageNeedsRedraw
      ensures currentPage == old(currentPage) && previousPage == old(previousPage)
      ensures currentMenuIndex == old(currentMenuIndex) && progressValue == old(progressValue)
      ensures lastNavigationTime == old(lastNavigationTime) && errorHistory == old(errorHistory)
      ensures selectedLightRegion == old(selectedLightRegion)
    {
      if selectedLightRegion == [] || !hasLightManager {
        return None;
      }
      var region := RegionIdOf(selectedLightRegion);
      if region.None? {
        return None;
      }
      selectedNeopixels := [];
      pageNeedsRedraw := true;
      return Some(RegionWrite(region.value, 0));
    }
  }
}
