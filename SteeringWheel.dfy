/**
 * The smart steering-wheel page: pressure-sensitive buttons whose labels depend on the
 * driving mode, a three-tier reading of the pressure (accidental touch, undecided,
 * intentional press), and a safety alert when a hand leaves the wheel.
 */
module SteeringWheel {
  import opened Common
  import Accessibility
  import HapticSound

  datatype DriveMode = Drive | Cruise | Parking

  function DriveModeName(m: DriveMode): string {
    match m
    case Drive => "drive"
    case Cruise => "cruise"
    case Parking => "parking"
  }

  /** `contextualButtons`: the four button labels of each mode. */
  function ContextualButtons(m: DriveMode): (buttons: seq<string>)
    ensures |buttons| == 4
    ensures forall i, j :: 0 <= i < j < 4 ==> buttons[i] != buttons[j]
    ensures forall b :: b in buttons ==> b != ""
  {
    match m
    case Drive => ["Media", "Phone", "Voice", "Cruise"]
    case Cruise => ["Speed+", "Speed-", "Distance", "Cancel"]
    case Parking => ["Camera", "Sensors", "Park Assist", "Emergency"]
  }

  /** No label belongs to two modes, so a label names its mode's button unambiguously. */
  lemma ModeButtonsDisjoint(m1: DriveMode, m2: DriveMode, b: string)
    requires b in ContextualButtons(m1) && b in ContextualButtons(m2)
    ensures m1 == m2
  {
  }

  /** How `handlePressure` reads a pressure value. */
  datatype PressureTier = Accidental | Undecided | Intentional

  /** Below 30 is an accidental touch; only strictly above 60 is an intentional press. */
  function Tier(pressure: int): (t: PressureTier)
    ensures t == Accidental <==> pressure < 30
    ensures t == Intentional <==> pressure > 60
    ensures t == Undecided <==> 30 <= pressure <= 60
  {
    if pressure < 30 then Accidental else if pressure > 60 then Intentional else Undecided
  }

  function TierRank(t: PressureTier): nat {
    match t
    case Accidental => 0
    case Undecided => 1
    case Intentional => 2
  }

  /** Pressing harder never lowers the tier. */
  lemma TierMonotone(p: int, q: int)
    requires p <= q
    ensures TierRank(Tier(p)) <= TierRank(Tier(q))
  {
  }

  /** `activeButton` after a pressure reading on `button`. */
  function ActiveButtonAfter(pressure: int, button: string, current: Option<string>): (selected: Option<string>)
    ensures pressure > 60 ==> selected == Some(button)
    ensures pressure <= 60 ==> selected == current
  {
    if Tier(pressure) == Intentional then Some(button) else current
  }

  /** The feedback `handlePressure` gives, from the active button before the reading. */
  function PressureFeedback(pressure: int, button: string, current: Option<string>): (fb: Option<Feedback>)
    ensures pressure > 60 ==> fb == Some(Feedback(button + " pressed", Strong))
    ensures pressure < 30 ==> fb == if Truthy(current) then None else Some(Feedback(button + " detected", Light))
    ensures 30 <= pressure <= 60 ==> fb == None
  {
    match Tier(pressure)
    case Accidental => if !Truthy(current) then Some(Feedback(button + " detected", Light)) else None
    case Intentional => Some(Feedback(button + " pressed", Strong))
    case Undecided => None
  }

  /**
   * The three tiers of `handlePressure`: an intentional press selects the button with strong
   * feedback, an accidental touch only guides (and only while no button is selected), and
   * anything from 30 to 60 inclusive, 60 itself included, changes nothing.
   */
  lemma PressureTiers(pressure: int, button: string, current: Option<string>)
    ensures ActiveButtonAfter(pressure, button, current) == Some(button) || ActiveButtonAfter(pressure, button, current) == current
    ensures ActiveButtonAfter(pressure, button, current) != current ==> pressure > 60
    ensures pressure > 60 ==> PressureFeedback(pressure, button, current) == Some(Feedback(button + " pressed", Strong))
    ensures PressureFeedback(pressure, button, current).Some? && PressureFeedback(pressure, button, current).value.intensity == Light
      <==> pressure < 30 && !Truthy(current)
    ensures 30 <= pressure <= 60 ==> PressureFeedback(pressure, button, current) == None
    ensures PressureFeedback(60, button, current) == None && ActiveButtonAfter(60, button, current) == current
  {
  }

  /** The page's wheel state, without the feedback toast. */
  datatype WheelState = WheelState(
    activeState: string,
    mode: DriveMode,
    pressureLevel: int,
    activeButton: Option<string>,
    leftHand: bool,
    rightHand: bool)

  const SafetyAlert := "Safety alert: Keep both hands on wheel"

  class SteeringWheelPage {
    const a11y: Accessibility.AccessibilityService
    const sound: HapticSound.HapticSoundPlayer

    var activeState: string
    var currentMode: DriveMode
    var pressureLevel: int
    var activeButton: Option<string>
    var lastAction: Option<string>
    var showHapticFeedback: bool
    /** Hide-feedback timers scheduled and not yet run; none is ever cancelled. */
    var pendingClears: nat
    var leftHand: bool
    var rightHand: bool

    ghost predicate Valid()
      reads this, a11y, sound
    {
      a11y.Valid() && sound.Valid()
    }

    function Wheel(): WheelState
      reads this
    {
      WheelState(activeState, currentMode, pressureLevel, activeButton, leftHand, rightHand)
    }

    twostate predicate Toasted(action: Option<string>)
      reads this
    {
      lastAction == action && showHapticFeedback && pendingClears == old(pendingClears) + 1
    }

    twostate predicate NotToasted()
      reads this
    {
      lastAction == old(lastAction) && showHapticFeedback == old(showHapticFeedback) && pendingClears == old(pendingClears)
    }

    /** The page gave the feedback `fb` (toast, cue and speech), or none at all. */
    twostate predicate Reacted(fb: Option<Feedback>)
      reads this, a11y, sound
    {
      match fb
      case Some(f) =>
        Toasted(Some(f.action)) && sound.Played([SoundType(f.intensity)])
        && a11y.QueueGrewBy(Accessibility.ActionSpeech(old(a11y.screenReaderEnabled), Some(f.action)))
      case None => NotToasted() && sound.Played([]) && a11y.QueueGrewBy([])
    }

    constructor (a11y: Accessibility.AccessibilityService, sound: HapticSound.HapticSoundPlayer)
      requires a11y.Valid() && sound.Valid()
      ensures Valid() && this.a11y == a11y && this.sound == sound
      ensures Wheel() == WheelState("inactive", Drive, 0, None, false, false)
      ensures lastAction == None && !showHapticFeedback && pendingClears == 0
    {
      this.a11y := a11y;
      this.sound := sound;
      activeState := "inactive";
      currentMode := Drive;
      pressureLevel := 0;
      activeButton := None;
      lastAction := None;
      showHapticFeedback := false;
      pendingClears := 0;
      leftHand := false;
      rightHand := false;
    }

    /** `triggerHapticFeedback`, as on the door page. */
    method TriggerHapticFeedback(action: Option<string>, intensity: Intensity)
      requires Valid()
      modifies this, a11y, sound
      ensures Valid() && Wheel() == old(Wheel())
      ensures Toasted(action) && sound.Played([SoundType(intensity)])
      ensures a11y.QueueGrewBy(Accessibility.ActionSpeech(old(a11y.screenReaderEnabled), action))
    {
      lastAction := action;
      showHapticFeedback := true;
      sound.PlayHapticSound(SoundType(intensity));
      a11y.SpeakActionIfEnabled(action);
      pendingClears := pendingClears + 1;
    }

    /** The oldest hide timer fires. */
    method ClearFeedback()
      requires pendingClears > 0
      modifies this`showHapticFeedback, this`pendingClears
      ensures !showHapticFeedback && pendingClears == old(pendingClears) - 1
    {
      showHapticFeedback := false;
      pendingClears := pendingClears - 1;
    }

    /** `handleStateChange`: the state is always stored; a string it does not know gets no reaction. */
    method HandleStateChange(newState: string)
      requires Valid()
      modifies this, a11y, sound
      ensures Valid() && Wheel() == old(Wheel()).(activeState := newState)
      ensures newState == "active" ==> Reacted(Some(Feedback("Steering controls activated", Strong)))
      ensures newState == "proximity" ==>
        NotToasted() && sound.Played(["proximity"])
        && a11y.QueueGrewBy(Accessibility.ActionSpeech(old(a11y.screenReaderEnabled), Some("Hand detected on steering wheel")))
      ensures newState == "inactive" ==>
        NotToasted() && sound.Played([])
        && a11y.QueueGrewBy(Accessibility.ActionSpeech(old(a11y.screenReaderEnabled), Some("Steering controls deactivated")))
      ensures ParseLifecycle(newState) == None ==> Reacted(None)
    {
      if newState == "active" {
        activeState := newState;
        TriggerHapticFeedback(Some("Steering controls activated"), Strong);
      } else if newState == "proximity" {
        DetectHand();
        activeState := newState;
      } else if newState == "inactive" {
        a11y.SpeakActionIfEnabled(Some("Steering controls deactivated"));
        activeState := newState;
      } else {
        activeState := newState;
      }
    }

    /** The proximity branch: the "proximity" cue, and speech only with the reader on. */
    method DetectHand()
      requires Valid()
      modifies a11y, sound
      ensures Valid() && sound.Played(["proximity"])
      ensures a11y.QueueGrewBy(Accessibility.ActionSpeech(old(a11y.screenReaderEnabled), Some("Hand detected on steering wheel")))
    {
      sound.PlayHapticSound("proximity");
      a11y.SpeakActionIfEnabled(Some("Hand detected on steering wheel"));
    }

    /** `handlePressure`: records the pressure, then acts on its tier. */
    method HandlePressure(pressure: int, button: string)
      requires Valid()
      modifies this, a11y, sound
      ensures Valid()
      ensures Wheel() == old(Wheel()).(pressureLevel := pressure,
        activeButton := ActiveButtonAfter(pressure, button, old(activeButton)))
      ensures Reacted(PressureFeedback(pressure, button, old(activeButton)))
    {
      pressureLevel := pressure;
      if pressure < 30 {
        if !Truthy(activeButton) {
          TriggerHapticFeedback(Some(button + " detected"), Light);
        }
      } else if pressure > 60 {
        activeButton := Some(button);
        TriggerHapticFeedback(Some(button + " pressed"), Strong);
      }
    }

    /** `handleModeChange`: neither the selected button nor the pressure is reset. */
    method HandleModeChange(newMode: DriveMode)
      requires Valid()
      modifies this, a11y, sound
      ensures Valid() && Wheel() == old(Wheel()).(mode := newMode)
      ensures Toasted(Some(DriveModeName(newMode) + " mode activated")) && sound.Played([SoundType(Medium)])
      ensures a11y.QueueGrewBy(
        Accessibility.ActionSpeech(old(a11y.screenReaderEnabled), Some(DriveModeName(newMode) + " mode activated"))
        + Accessibility.ActionSpeech(old(a11y.screenReaderEnabled),
            Some("Available controls: " + Join(ContextualButtons(newMode), ", "))))
    {
      var announcement := Some(DriveModeName(newMode) + " mode activated");
      var listing := Some("Available controls: " + Join(ContextualButtons(newMode), ", "));
      ghost var q0, e0 := a11y.queue, a11y.enqueued;
      ghost var x := Accessibility.ActionSpeech(a11y.screenReaderEnabled, announcement);
      ghost var y := Accessibility.ActionSpeech(a11y.screenReaderEnabled, listing);
      currentMode := newMode;
      TriggerHapticFeedback(announcement, Medium);
      a11y.SpeakActionIfEnabled(listing);
      assert q0 + x + y == q0 + (x + y) && e0 + x + y == e0 + (x + y);
    }

    /** `handleHandPosition`: stores both hands and alerts exactly when one is off the wheel. */
    method HandleHandPosition(left: bool, right: bool)
      requires Valid()
      modifies this, a11y, sound
      ensures Valid() && Wheel() == old(Wheel()).(leftHand := left, rightHand := right)
      ensures Reacted(if !left || !right then Some(Feedback(SafetyAlert, Strong)) else None)
    {
      leftHand := left;
      rightHand := right;
      if !left || !right {
        TriggerHapticFeedback(Some(SafetyAlert), Strong);
      }
    }
  }
}
