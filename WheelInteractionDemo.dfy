/**
 * The steering wheel's interaction demo: buttons that send fixed pressures to the page's
 * pressure handler, cards that send a firm press, a caption that reads the recorded
 * pressure, and the feedback toast.
 */
module WheelInteractionDemo {
  import opened Common
  import opened SteeringWheel
  import Accessibility
  import HapticSound

  datatype PressLevel = LightTouch | MediumPress | FirmPress

  /** `simulatePressure`: one fixed value per demo button. */
  function SimulatedPressure(level: PressLevel): (pressure: int)
    ensures 0 <= pressure <= 100
  {
    match level
    case LightTouch => 25
    case MediumPress => 50
    case FirmPress => 85
  }

  /** Each demo button lands in its own tier of the handler, in order of strength. */
  lemma SimulatedPressuresCoverTiers()
    ensures Tier(SimulatedPressure(LightTouch)) == Accidental
    ensures Tier(SimulatedPressure(MediumPress)) == Undecided
    ensures Tier(SimulatedPressure(FirmPress)) == Intentional
    ensures Tier(CardPressure) == Intentional
  {
  }

  /** The pressure a contextual card sends when clicked. */
  const CardPressure := 75

  datatype PressEvent = PressEvent(pressure: int, button: string)

  /** The buttons that get a row of pressure-demo buttons: only the first two. */
  function PressureRows(buttons: seq<string>): (rows: seq<string>)
    ensures |rows| == if |buttons| < 2 then |buttons| else 2
    ensures forall b :: b in rows ==> b in buttons
    ensures rows <= buttons
  {
    if |buttons| < 2 then buttons else buttons[..2]
  }

  /**
   * Every press the demo can send: none while inactive (only a placeholder renders);
   * otherwise the three pressures for the first two buttons and a card press for each button.
   */
  function DemoPresses(activeState: string, buttons: seq<string>): (events: set<PressEvent>)
    ensures activeState == LifecycleName(Inactive) ==> events == {}
    ensures forall e :: e in events ==> e.button in buttons
    ensures forall e :: e in events && e.pressure != CardPressure ==> e.button in PressureRows(buttons)
    ensures activeState != LifecycleName(Inactive) ==>
      forall b :: b in buttons ==> PressEvent(CardPressure, b) in events
    ensures activeState != LifecycleName(Inactive) ==>
      forall b, p :: b in PressureRows(buttons) && p in {25, 50, 85} ==> PressEvent(p, b) in events
    ensures forall e :: e in events ==> e.pressure in {25, 50, 85, CardPressure}
  {
    if activeState == "inactive" then {}
    else
      (set b, p | b in PressureRows(buttons) && p in [25, 50, 85] :: PressEvent(p, b))
      + (set b | b in buttons :: PressEvent(CardPressure, b))
  }

  const GuidanceCaption := "Light touch detected - showing guidance"
  const PreparingCaption := "Medium pressure - preparing to activate"
  const ActivatedCaption := "Button activated with firm press"

  /** The caption under the active button; its tiers are < 30, 30 to 59, and 60 or more. */
  function Caption(pressureLevel: int, activeButton: Option<string>): (caption: Option<string>)
    ensures caption.Some? <==> Truthy(activeButton)
    ensures caption == Some(GuidanceCaption) <==> Truthy(activeButton) && pressureLevel < 30
    ensures caption == Some(PreparingCaption) <==> Truthy(activeButton) && 30 <= pressureLevel < 60
    ensures caption == Some(ActivatedCaption) <==> Truthy(activeButton) && pressureLevel >= 60
  {
    if !Truthy(activeButton) then None
    else if pressureLevel < 30 then Some(GuidanceCaption)
    else if pressureLevel < 60 then Some(PreparingCaption)
    else Some(ActivatedCaption)
  }

  /**
   * The caption's "60 or more" and the handler's "more than 60" disagree at exactly one
   * value: a recorded 60 is captioned as an activation the handler never made.
   */
  lemma CaptionAndHandlerDisagreeOnlyAt60(pressure: int, button: string)
    requires button != ""
    ensures (Caption(pressure, Some(button)) == Some(ActivatedCaption) && Tier(pressure) != Intentional) <==> pressure == 60
    ensures Caption(pressure, Some(button)) == Some(GuidanceCaption) <==> Tier(pressure) == Accidental
  {
  }

  /** The toast shows while feedback is on and there is a non-empty action to show. */
  predicate ToastVisible(showHapticFeedback: bool, lastAction: Option<string>): (visible: bool)
    ensures visible ==> showHapticFeedback && lastAction.Some?
    ensures visible <==> showHapticFeedback && lastAction != None && lastAction != Some("")
  {
    showHapticFeedback && Truthy(lastAction)
  }

  /**
   * A contextual card's click, a firm press on its button: it selects the button, shows the
   * toast with "<button> pressed", and the caption reads it as an activation.
   */
  method CardClick(page: SteeringWheelPage, button: string)
    requires page.Valid() && button in ContextualButtons(page.currentMode)
    modifies page, page.a11y, page.sound
    ensures page.Valid() && page.Reacted(Some(Feedback(button + " pressed", Strong)))
    ensures page.activeButton == Some(button) && ToastVisible(page.showHapticFeedback, page.lastAction)
    ensures Caption(page.pressureLevel, page.activeButton) == Some(ActivatedCaption)
  {
    page.HandlePressure(CardPressure, button);
  }
}
