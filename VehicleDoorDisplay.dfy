/**
 * The door panel display: it shows the controls the page makes available, lets clicks
 * through only while the system is active, runs the LED colour picker, and converts
 * between the sliders' values and the page's window position and LED intensity.
 */
module VehicleDoorDisplay {
  import opened Common
  import opened VehicleDoor
  import Accessibility
  import HapticSound

  /** The LED colour shown while the strip is off. */
  const DefaultLedColor := "#3b82f6"

  /** `getCurrentColor`: with the strip on, a hovered colour previews over the chosen one. */
  function CurrentColor(ledIntensity: int, hovered: Option<string>, ledColor: string): (color: string)
    ensures ledIntensity <= 0 ==> color == DefaultLedColor
    ensures ledIntensity > 0 && !Truthy(hovered) ==> color == ledColor
    ensures ledIntensity > 0 && Truthy(hovered) ==> color == hovered.value
  {
    if ledIntensity > 0 then (if Truthy(hovered) then hovered.value else ledColor) else DefaultLedColor
  }

  /** The look `getControlStyle` gives a control button. */
  datatype ControlLook = Unavailable | Selected | Lit | Dimmed | Off

  /**
   * `getControlStyle`: availability decides first, then whether the control is the active
   * one, then the lifecycle state; a state string it does not know looks inactive.
   */
  function ControlStyle(available: seq<string>, activeControl: Option<string>, activeState: string, control: string): (look: ControlLook)
    ensures look == Unavailable <==> control !in available
    ensures look == Selected <==> control in available && activeControl == Some(control)
    ensures look == Lit <==> control in available && activeControl != Some(control) && ParseLifecycle(activeState) == Some(Active)
    ensures look == Dimmed <==> control in available && activeControl != Some(control) && ParseLifecycle(activeState) == Some(Proximity)
    ensures look == Off <==> control in available && activeControl != Some(control) && ParseLifecycle(activeState) !in {Some(Active), Some(Proximity)}
  {
    if control !in available then Unavailable
    else if activeControl == Some(control) then Selected
    else if activeState == "active" then Lit
    else if activeState == "proximity" then Dimmed
    else Off
  }

  datatype SliderKind = WindowSlider | LedSlider

  /** The value a slider shows: how far open the window is, or the LED intensity. */
  function SliderValue(kind: SliderKind, windowPosition: int, ledIntensity: int): (value: int)
    ensures kind == WindowSlider ==> value + windowPosition == 100
    ensures kind == WindowSlider && 0 <= windowPosition <= 100 ==> 0 <= value <= 100
    ensures kind == LedSlider ==> value == ledIntensity
  {
    match kind
    case WindowSlider => 100 - windowPosition
    case LedSlider => ledIntensity
  }

  /** The window position the window slider writes back; it undoes `SliderValue`. */
  function WindowPositionFor(value: int): (position: int)
    ensures SliderValue(WindowSlider, position, 0) == value
    ensures forall led :: WindowPositionFor(SliderValue(WindowSlider, position, led)) == position
  {
    100 - value
  }

  /** How many of the ten segments under a slider are lit: floor(value * 10 / 100). */
  function LitSegments(value: int): (n: int)
    ensures 10 * n <= value < 10 * n + 10
    ensures 0 <= value <= 100 ==> 0 <= n <= 10
  {
    value / 10
  }

  /** The ten segments, left to right; segment `i` is lit once the value reaches 10 * (i + 1). */
  function SegmentRow(value: int): (row: seq<bool>)
    ensures |row| == 10
    ensures forall i :: 0 <= i < 10 ==> (row[i] <==> 10 * (i + 1) <= value)
    ensures forall i, j :: 0 <= i < j < 10 && row[j] ==> row[i]
  {
    var n := LitSegments(value);
    seq(10, i requires 0 <= i < 10 => i < n)
  }

  /** The members of `candidates` that are also in `available`, in the order of `candidates`. */
  function Shown(candidates: seq<string>, available: seq<string>): (shown: seq<string>)
    ensures forall c :: c in shown <==> c in candidates && c in available
    ensures |shown| <= |candidates|
  {
    if candidates == [] then []
    else (if candidates[0] in available then [candidates[0]] else []) + Shown(candidates[1..], available)
  }

  /** The buttons the panel renders: the known controls that are available, in panel order. */
  function RenderedControls(available: seq<string>): (shown: seq<string>)
    ensures forall c :: c in shown <==> c in KnownControls && c in available
    ensures |shown| <= 5
  {
    Shown(KnownControls, available)
  }

  /** `getStatusText`: the line under each button; empty for a name it does not know. */
  function StatusText(control: string, windowPosition: int, doorLocked: bool, radioStation: int,
                      trunkOpen: bool, ledIntensity: int): (text: string)
    ensures text == "" <==> control !in KnownControls
    ensures control == "Window" ==> text == IntToString(SliderValue(WindowSlider, windowPosition, ledIntensity)) + "% Open"
    ensures control == "LED" ==> text == IntToString(SliderValue(LedSlider, windowPosition, ledIntensity)) + "% Intensity"
    ensures control == "Lock" ==> text == if doorLocked then "Locked" else "Unlocked"
    ensures control == "Radio" ==> text == "Station " + IntToString(radioStation)
    ensures control == "Trunk" ==> text == if trunkOpen then "Open" else "Closed"
  {
    if control == "Window" then IntToString(100 - windowPosition) + "% Open"
    else if control == "Lock" then (if doorLocked then "Locked" else "Unlocked")
    else if control == "Radio" then "Station " + IntToString(radioStation)
    else if control == "Trunk" then (if trunkOpen then "Open" else "Closed")
    else if control == "LED" then IntToString(ledIntensity) + "% Intensity"
    else ""
  }

  /** The status line of `control` for the page state `p`. */
  function StatusOf(p: DoorPanel, control: string): string {
    StatusText(control, p.windowPosition, p.doorLocked, p.radioStation, p.trunkOpen, p.ledIntensity)
  }

  /**
   * After a press, the status line under the button and the press's toast agree: the lock
   * and trunk lines name the position the message announces, and the radio line the
   * station it announces.
   */
  lemma StatusAgreesWithPressFeedback(p: DoorPanel)
    ensures StatusOf(Press(p, "Lock"), "Lock") == "Locked" <==> PressFeedback(p, "Lock") == Some(Feedback("Door locked", Strong))
    ensures StatusOf(Press(p, "Lock"), "Lock") == "Unlocked" <==> PressFeedback(p, "Lock") == Some(Feedback("Door unlocked", Strong))
    ensures StatusOf(Press(p, "Trunk"), "Trunk") == "Open" <==> PressFeedback(p, "Trunk") == Some(Feedback("Trunk opened", Strong))
    ensures StatusOf(Press(p, "Trunk"), "Trunk") == "Closed" <==> PressFeedback(p, "Trunk") == Some(Feedback("Trunk closed", Strong))
    ensures exists n: int {:trigger IntToString(n)} ::
      StatusOf(Press(p, "Radio"), "Radio") == "Station " + IntToString(n)
      && PressFeedback(p, "Radio") == Some(Feedback("Radio station " + IntToString(n), Light))
  {
    var n := Press(p, "Radio").radioStation;
    assert StatusOf(Press(p, "Radio"), "Radio") == "Station " + IntToString(n);
  }

  /** The page state after a slider moved to `value`. */
  function SliderPanel(p: DoorPanel, kind: SliderKind, value: int): (q: DoorPanel)
    ensures SliderValue(kind, q.windowPosition, q.ledIntensity) == value
  {
    match kind
    case WindowSlider => p.(windowPosition := WindowPositionFor(value))
    case LedSlider => p.(ledIntensity := value)
  }

  /** The toast a slider gives at `value`: how far the window is open, or the LED percentage. */
  function SliderMessage(kind: SliderKind, value: int): string {
    match kind
    case WindowSlider => "Window " + IntToString(value) + "% open"
    case LedSlider => "LED intensity " + IntToString(value) + "%"
  }

  class DoorDisplay {
    const page: VehicleDoorPage
    const door: DoorType
    var hoveredColor: Option<string>
    var colorPickerActive: bool

    ghost predicate Valid()
      reads this, page, page.a11y, page.sound
    {
      page.Valid()
    }

    constructor (page: VehicleDoorPage, door: DoorType)
      requires page.Valid()
      ensures Valid()
      ensures this.page == page && this.door == door
      ensures hoveredColor == None && !colorPickerActive
    {
      this.page := page;
      this.door := door;
      hoveredColor := None;
      colorPickerActive := false;
    }

    function Available(): seq<string>
      reads page
    {
      Controls(page.currentMode, door)
    }

    /** A click reaches the page only for an available control while the system is active. */
    predicate ClickAccepted(control: string)
      reads page
    {
      control in Available() && page.activeState == Active
    }

    /** The picker is open exactly while LED is the active control. */
    predicate Synced()
      reads this, page
    {
      colorPickerActive == (page.activeControl == Some("LED"))
    }

    /** Colour hovers and selections take effect only through an open picker on an LED door. */
    predicate PickerEnabled()
      reads this, page
    {
      "LED" in Available() && colorPickerActive
    }

    /** The effect that re-syncs the picker whenever `activeControl` changes. */
    method SyncColorPicker()
      modifies this`colorPickerActive
      ensures Synced()
    {
      colorPickerActive := page.activeControl == Some("LED");
    }

    /**
     * `handleControlClick`: a rejected click changes nothing; an accepted one toggles the
     * picker for LED, closes it for any other control, and presses the control once. A
     * picker in step with `activeControl` stays in step.
     */
    method HandleControlClick(control: string)
      requires Valid()
      modifies this`colorPickerActive, page, page.a11y, page.sound
      ensures Valid()
      ensures old(ClickAccepted(control)) ==>
        page.Pressed(control) && colorPickerActive == (control == "LED" && !old(colorPickerActive))
      ensures !old(ClickAccepted(control)) ==>
        colorPickerActive == old(colorPickerActive) && unchanged(page, page.a11y, page.sound)
      ensures old(Synced()) ==> Synced()
    {
      if !(control in Available() && page.activeState == Active) {
        return;
      }
      if control == "LED" {
        colorPickerActive := !colorPickerActive;
      } else {
        colorPickerActive := false;
      }
      page.HandleControlPress(control);
    }

    /** `handleColorHover`: previews a colour through an open picker. */
    method HandleColorHover(color: string)
      modifies this`hoveredColor
      ensures hoveredColor == if PickerEnabled() then Some(color) else old(hoveredColor)
      ensures PickerEnabled() && page.ledIntensity > 0 && color != "" ==>
        CurrentColor(page.ledIntensity, hoveredColor, page.ledColor) == color
    {
      if "LED" in Available() && colorPickerActive {
        hoveredColor := Some(color);
      }
    }

    /** Leaving a swatch always ends the preview. */
    method HandleColorLeave()
      modifies this`hoveredColor
      ensures hoveredColor == None
      ensures CurrentColor(page.ledIntensity, hoveredColor, page.ledColor) ==
        if page.ledIntensity > 0 then page.ledColor else DefaultLedColor
    {
      hoveredColor := None;
    }

    /** `handleColorSelect`: through an open picker, sets the LED colour and ends the preview. */
    method HandleColorSelect(color: string)
      requires Valid()
      modifies this`hoveredColor, page, page.a11y, page.sound
      ensures Valid()
      ensures old(PickerEnabled()) ==>
        && hoveredColor == None
        && page.Panel() == old(page.Panel()).(ledColor := color)
        && page.Reacted(Some(Feedback("LED color changed", Light)))
        && (page.ledIntensity > 0 ==> CurrentColor(page.ledIntensity, hoveredColor, page.ledColor) == color)
      ensures !old(PickerEnabled()) ==> hoveredColor == old(hoveredColor) && unchanged(page, page.a11y, page.sound)
    {
      if "LED" in Available() && colorPickerActive {
        page.HandleLedColorChange(color);
        hoveredColor := None;
      }
    }

    /**
     * A slider moved to `value` (the range input only produces 0..100): the page's window
     * position or LED intensity is set so that the slider shows exactly `value`.
     */
    method HandleSliderChange(kind: SliderKind, value: int)
      requires Valid()
      requires 0 <= value <= 100
      modifies page, page.a11y, page.sound
      ensures Valid()
      ensures page.Panel() == SliderPanel(old(page.Panel()), kind, value)
      ensures page.Reacted(Some(Feedback(SliderMessage(kind, value), Light)))
      ensures SliderValue(kind, page.windowPosition, page.ledIntensity) == value
      ensures kind == WindowSlider ==> 0 <= page.windowPosition <= 100
      ensures LitSegments(SliderValue(kind, page.windowPosition, page.ledIntensity)) == value / 10
    {
      match kind
      case WindowSlider => page.HandleWindowSliderChange(WindowPositionFor(value));
      case LedSlider => page.HandleLedSliderChange(value);
    }
  }
}
