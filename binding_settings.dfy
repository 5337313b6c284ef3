/** The area binding page: the page's view of the input manager's binding
    state, the binding progress as a percentage, and the name of the area
    being bound. */
module BindingSettings {
  import opened Common
  import opened Text
  import AreaSensitivity

  /** The input manager's binding state as this page reads it. */
  datatype BindingState = Idle | WaitTouch | Processing | OtherState

  /** The page's own state. */
  datatype BindingUiState = UiIdle | BindingActive | BindingError

  /** The number of areas bound in one run. */
  const BINDING_AREAS: nat := 34

  /** The state `get_current_binding_state` settles on: idle when the input
      manager is idle or in any other state, active while it waits for a
      touch or processes one, an error without an input manager. */
  function UiStateOf(state: Option<BindingState>): (u: BindingUiState)
    ensures u == BindingError <==> state.None?
    ensures u == BindingActive <==> state == Some(WaitTouch) || state == Some(Processing)
  {
    match state
    case None => BindingError
    case Some(Idle) => UiIdle
    case Some(WaitTouch) => BindingActive
    case Some(Processing) => BindingActive
    case Some(OtherState) => UiIdle
  }

  /** `get_binding_progress`: the share of areas done, as a byte, while
      binding; 100 when idle; 0 otherwise or without an input manager. */
  function BindingProgress(state: Option<BindingState>, index: byte): byte
  {
    match state
    case Some(WaitTouch) => (index * 100 / BINDING_AREAS) % 0x100
    case Some(Processing) => (index * 100 / BINDING_AREAS) % 0x100
    case Some(Idle) => 100
    case _ => 0
  }

  /** While binding, the progress is a percentage that grows with the
      index and reaches 100 exactly at the last area; idle reads as done
      and any other state as not started. */
  lemma ProgressIsPercentage(state: Option<BindingState>, i: byte, j: byte)
    requires i <= j <= BINDING_AREAS
    ensures state == Some(WaitTouch) || state == Some(Processing) ==>
      BindingProgress(state, i) <= BindingProgress(state, j) <= 100
      && (BindingProgress(state, j) == 100 <==> j == BINDING_AREAS)
    ensures state == Some(Idle) ==> BindingProgress(state, i) == 100
    ensures state.None? || state == Some(OtherState) ==> BindingProgress(state, i) == 0
  {
    var p, q := i as int * 100 / BINDING_AREAS, j as int * 100 / BINDING_AREAS;
    assert p <= q <= 100 && (q == 100 <==> j == BINDING_AREAS) by { PercentSteps(i, j); }
    if state == Some(WaitTouch) || state == Some(Processing) {
      assert p % 0x100 == p && q % 0x100 == q;
      assert BindingProgress(state, i) as int == p && BindingProgress(state, j) as int == q;
    }
  }

  /** Integer percentages of `i` and `j` out of the 34 areas. */
  lemma PercentSteps(i: nat, j: nat)
    requires i <= j <= BINDING_AREAS
    ensures i * 100 / BINDING_AREAS <= j * 100 / BINDING_AREAS <= 100
    ensures j * 100 / BINDING_AREAS == 100 <==> j == BINDING_AREAS
  {
    var p, q := i * 100 / BINDING_AREAS, j * 100 / BINDING_AREAS;
    assert BINDING_AREAS * p <= i * 100 < BINDING_AREAS * (p + 1);
    assert BINDING_AREAS * q <= j * 100 < BINDING_AREAS * (q + 1);
  }

  /** The names of the 34 areas. */
  const AREA_NAMES: seq<string> := [
    "A1", "A2", "A3", "A4", "A5", "A6", "A7", "A8",
    "B1", "B2", "B3", "B4", "B5", "B6", "B7", "B8",
    "C1", "C2", "D1", "D2", "D3", "D4", "D5", "D6", "D7", "D8",
    "E1", "E2", "E3", "E4", "E5", "E6", "E7", "E8"]

  /** `get_mai2_area_name`: the table's name, or "区域" and the index past
      the table. */
  function Mai2AreaName(index: byte): string
  {
    if index < |AREA_NAMES| then AREA_NAMES[index] else "区域" + NatToString(index)
  }

  /** The table agrees with the sensitivity page's computed names. */
  lemma AreaNamesAgree(index: byte)
    requires index < BINDING_AREAS
    ensures Mai2AreaName(index) == AreaSensitivity.AreaName(index)
  {
    var row := AreaSensitivity.RowOf(index);
    var col: nat := index - AreaSensitivity.RowStart(row) + 1;
    assert 1 <= col <= 8;
    assert NatToString(col) == [DigitChar(col)];
  }

  /** The binding area names are pairwise distinct, read back through the
      sensitivity page's name reader. */
  lemma Mai2AreaNameRoundTrip(index: byte)
    requires index < BINDING_AREAS
    ensures AreaSensitivity.AreaOfName(Mai2AreaName(index)) == Some(index as nat)
  {
    AreaNamesAgree(index);
    AreaSensitivity.AreaNameRoundTrip(index);
  }

  const BINDING_DONE: string := "绑定完成"

  /** `get_current_binding_area`: the area's name while binding (done past
      the last area), done when idle, empty otherwise or without an input
      manager. */
  function CurrentBindingArea(state: Option<BindingState>, index: byte): (s: string)
    ensures (state == Some(WaitTouch) || state == Some(Processing)) && index < BINDING_AREAS ==>
      AreaSensitivity.AreaOfName(s) == Some(index as nat)
    ensures state == Some(Idle) || ((state == Some(WaitTouch) || state == Some(Processing)) && index >= BINDING_AREAS) ==>
      s == BINDING_DONE
    ensures state.None? || state == Some(OtherState) ==> s == ""
  {
    if state == Some(WaitTouch) || state == Some(Processing) then
      if index < BINDING_AREAS then
        Mai2AreaNameRoundTrip(index);
        Mai2AreaName(index)
      else BINDING_DONE
    else if state == Some(Idle) then BINDING_DONE
    else ""
  }

  /** The page's state, static in the firmware. */
  class BindingSettingsPage {
    var uiState: BindingUiState

    constructor ()
      ensures uiState == UiIdle
    {
      uiState := UiIdle;
    }

    /** `get_current_binding_state`: without an input manager the error
        state is returned and the stored state is left alone. */
    method GetCurrentBindingState(state: Option<BindingState>) returns (u: BindingUiState)
      modifies this
      ensures u == UiStateOf(state)
      ensures state.Some? ==> uiState == u
      ensures state.None? ==> uiState == old(uiState)
    {
      if state.None? {
        return BindingError;
      }
      match state.value {
        case Idle => uiState := UiIdle;
        case WaitTouch => uiState := BindingActive;
        case Processing => uiState := BindingActive;
        case OtherState => uiState := UiIdle;
      }
      u := uiState;
    }
  }
}
